/**
 * The request building and response processing of
 * `get_current_temperature_async` and `_process_response`. The aiohttp
 * session and the awaiting are not modelled: the call is the same parameter
 * `get` as in the synchronous module, so a shared or a fresh session makes
 * no difference to the result.
 */
module AsyncMonitoring {
  import opened Wrappers
  import opened SyncMonitoring

  /**
   * `_process_response`: `None` when reading the JSON body raises, which the
   * caller's `except` then turns into the all-`None` triple.
   */
  function ProcessResponse(response: Response): (r: Option<Reading>)
    ensures r.None? <==> response.status == OK && response.body.Malformed?
    ensures r.Some? && response.status == OK ==>
      r.value == Reading(Some(response.body.temp), Some(OK), Some(response.body.description))
    ensures r.Some? && response.status != OK ==> r.value == Reading(None, Some(response.status), None)
  {
    if response.status == OK then
      match response.body
      case Weather(temp, description) => Some(Reading(Some(temp), Some(response.status), Some(description)))
      case Malformed => None
    else Some(Reading(None, Some(response.status), None))
  }

  function GetCurrentTemperatureAsync(city: string, apiKey: string, countryCode: Option<string>,
                                      get: RequestParams -> Outcome): (r: Reading)
    ensures var o := get(BuildParams(city, apiKey, countryCode));
      r == NoReading <==> o.Raised? || ProcessResponse(o.response).None?
  {
    match get(BuildParams(city, apiKey, countryCode))
    case Raised => NoReading
    case Answered(response) =>
      match ProcessResponse(response)
      case None => NoReading
      case Some(reading) => reading
  }

  /** The asynchronous fetch yields the same triple as the synchronous one for every outcome of the call. */
  lemma AsyncAgreesWithSync(city: string, apiKey: string, countryCode: Option<string>, get: RequestParams -> Outcome)
    ensures GetCurrentTemperatureAsync(city, apiKey, countryCode, get)
      == GetCurrentTemperatureSync(city, apiKey, countryCode, get)
  {
  }
}
