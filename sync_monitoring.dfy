/**
 * The request building and result shaping of `get_current_temperature_sync`.
 * The HTTP call itself is a parameter `get`: it maps the request parameters
 * to what the call produced, either a response or an exception (network
 * failure, timeout). The base URL and the 10-second timeout live inside `get`.
 */
module SyncMonitoring {
  import opened Wrappers

  /** The `params` dictionary sent to OpenWeatherMap. */
  datatype RequestParams = RequestParams(q: string, appid: string, units: string)

  /**
   * The decoded JSON body of a response: either the two fields that are read,
   * `main.temp` and `weather[0].description`, or a body on which decoding or
   * one of those lookups raises.
   */
  datatype Body = Weather(temp: real, description: string) | Malformed

  datatype Response = Response(status: int, body: Body)

  /** What the HTTP call produced: a response, or an exception before any response. */
  datatype Outcome = Answered(response: Response) | Raised

  /** The `(temperature, status, description)` triple; `None` stands for Python's `None`. */
  datatype Reading = Reading(temperature: Option<real>, status: Option<int>, description: Option<string>)

  const OK := 200
  const Metric := "metric"

  /** The triple returned from the `except` branch. */
  const NoReading := Reading(None, None, None)

  /** `q` is the city alone when the country code is absent or empty, else `city,country`. */
  function QueryFor(city: string, countryCode: Option<string>): string {
    if countryCode.Some? && countryCode.value != "" then city + "," + countryCode.value else city
  }

  function BuildParams(city: string, apiKey: string, countryCode: Option<string>): (p: RequestParams)
    ensures p.appid == apiKey && p.units == Metric
    ensures |city| <= |p.q| && p.q[..|city|] == city
  {
    RequestParams(QueryFor(city, countryCode), apiKey, Metric)
  }

  /** The position of the first comma of `q`. */
  function FirstComma(q: string): (k: nat)
    requires ',' in q
    ensures k < |q| && q[k] == ','
    ensures ',' !in q[..k]
  {
    if q[0] == ',' then 0
    else
      assert ',' in q[1..] by {
        var i :| 0 <= i < |q| && q[i] == ',';
        assert q[1..][i - 1] == ',';
      }
      var k := FirstComma(q[1..]);
      assert q[..k + 1] == [q[0]] + q[1..][..k];
      k + 1
  }

  /** Splits a `q` value at its first comma into the city and the country code. */
  function SplitQuery(q: string): (parts: (string, Option<string>))
    ensures ',' !in q ==> parts == (q, None)
    ensures ',' in q ==> parts.1.Some? && q == parts.0 + "," + parts.1.value && ',' !in parts.0
  {
    if ',' !in q then (q, None)
    else
      var k := FirstComma(q);
      assert q == q[..k] + "," + q[k + 1..];
      (q[..k], Some(q[k + 1..]))
  }

  /**
   * For a city name without a comma the query can be split back into the
   * city and the country code, an empty code reading as no code at all.
   */
  lemma QueryRoundTrip(city: string, countryCode: Option<string>)
    requires ',' !in city
    ensures SplitQuery(QueryFor(city, countryCode))
      == (city, if countryCode.Some? && countryCode.value != "" then countryCode else None)
  {
    var q := QueryFor(city, countryCode);
    if countryCode.Some? && countryCode.value != "" {
      assert q[|city|] == ',';
      var k := FirstComma(q);
      assert q[..k] == city;
      assert q[k + 1..] == countryCode.value;
    }
  }

  /** The shaping of the response: 200 gives the temperature and description, any other status only the status. */
  function GetCurrentTemperatureSync(city: string, apiKey: string, countryCode: Option<string>,
                                     get: RequestParams -> Outcome): (r: Reading)
    ensures var o := get(BuildParams(city, apiKey, countryCode));
      (r.temperature.Some? <==>
        o.Answered? && o.response.status == OK && o.response.body.Weather?) &&
      (r.temperature.Some? ==>
        r.temperature.value == o.response.body.temp &&
        r.description == Some(o.response.body.description)) &&
      (r.status.Some? <==>
        o.Answered? && (o.response.status == OK ==> o.response.body.Weather?)) &&
      (r.status.Some? ==> r.status.value == o.response.status) &&
      (r.temperature.None? <==> r.description.None?)
  {
    match get(BuildParams(city, apiKey, countryCode))
    case Raised => NoReading
    case Answered(response) =>
      if response.status == OK then
        match response.body
        case Weather(temp, description) => Reading(Some(temp), Some(response.status), Some(description))
        case Malformed => NoReading
      else Reading(None, Some(response.status), None)
  }

  /** A temperature is reported only together with status 200. */
  lemma TemperatureMeansOk(city: string, apiKey: string, countryCode: Option<string>, get: RequestParams -> Outcome)
    ensures var r := GetCurrentTemperatureSync(city, apiKey, countryCode, get);
      r.temperature.Some? ==> r.status == Some(OK)
    ensures var r := GetCurrentTemperatureSync(city, apiKey, countryCode, get);
      r.status.Some? && r.status.value != OK ==> r.temperature.None?
  {
  }
}
