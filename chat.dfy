/**
 * The `/chat` handler (backend/app.py:165-222): the message is stripped and
 * lower-cased, routed by prefix and substring tests to one command, and the
 * command's reply text is composed.
 *
 * Routing is `Route`, a function from the normalised message to an `Intent`.
 * Composing the reply is `Reply`, which reaches the outside world only
 * through an `Env`: the geocoder, the weather service, the caller's
 * IP-derived location, the haversine distance as printed, and the language
 * model that answers everything else.
 */
module Chat {
  import opened Wrappers
  import opened PyStr
  import opened AtPattern
  import opened Ports
  import opened Advisories

  /** What `get_location_from_ip` returns for the caller: a sentence and, maybe, coordinates. */
  datatype IpLocation = IpLocation(text: string, lat: Option<real>, lon: Option<real>)

  /** The outside world as one request sees it. */
  datatype Env = Env(
    geocode: Geocoder,                          // get_port_coordinates(query)
    weather: (real, real) -> string,            // get_weather(lat, lon), as printed
    ipLocation: IpLocation,                     // get_location_from_ip(request.remote_addr)
    nauticalMiles: (Coords, Coords) -> string,  // round(haversine_nm(a, b), 1), as printed
    assistant: (string, string) -> string       // ask_llm_general(message, engine)
  )

  /** The command a message selects, with the names parsed out of it. */
  datatype Intent =
    | DistanceUsage
    | DistanceBetween(fromName: string, toName: string)
    | WeatherHere
    | WeatherAt(phrase: string)
    | AlertsAt(port: string)
    | WhereAmI
    | LaytimeAt(port: string)
    | LaytimeDefinition
    | General(message: string)

  const UsageReply: string := "Please use 'distance <from> to <to>'."
  const LaytimeDefinitionReply: string := "Laytime is the time allowed for loading/unloading in charter parties."

  /** `(s or "").strip().lower()`, applied to the message and to the engine name. */
  function NormalizeMessage(raw: string): string {
    Lower(Strip(raw))
  }

  // ---------------------------------------------------------------------------
  // Parsing each command
  // ---------------------------------------------------------------------------

  /** The text after "distance", stripped, with one leading "from " dropped and stripped again. */
  function DistanceText(m: string): (txt: string)
    ensures IsStripped(txt)
  {
    var txt := Strip(ReplaceFirst(m, "distance", ""));
    if StartsWith(txt, "from ") then Strip(txt[5..]) else txt
  }

  /** `distance [from] A to B`: split at the first " to ", or the usage reply when there is none. */
  function DistanceIntent(m: string): Intent {
    var txt := DistanceText(m);
    if !Contains(txt, " to ") then DistanceUsage
    else
      var parts := SplitOnce(txt, " to ");
      DistanceBetween(Strip(parts[0]), Strip(parts[1]))
  }

  /** The text after "weather", stripped, with one leading "at " dropped and stripped again. */
  function WeatherPhrase(m: string): (p: string)
    ensures IsStripped(p)
  {
    var p := Strip(ReplaceFirst(m, "weather", ""));
    if StartsWith(p, "at ") then Strip(p[3..]) else p
  }

  /** `weather [at] P`: the caller's own position when `P` is empty or mentions "my location". */
  function WeatherIntent(m: string): Intent {
    var p := WeatherPhrase(m);
    if p == "" || Contains(p, "my location") then WeatherHere else WeatherAt(p)
  }

  /** `alert ... at P`, defaulting to Mumbai. */
  function AlertIntent(m: string): Intent {
    match SearchAt(m)
    case Some(g) => AlertsAt(Strip(g))
    case None => AlertsAt("mumbai")
  }

  /** `laytime ... at P`, or the definition of laytime when no port is named. */
  function LaytimeIntent(m: string): Intent {
    match SearchAt(m)
    case Some(g) => LaytimeAt(Lower(Strip(g)))
    case None => LaytimeDefinition
  }

  /** The routing of the normalised message: the first test that passes wins. */
  function Route(m: string): Intent {
    if StartsWith(m, "distance") then DistanceIntent(m)
    else if StartsWith(m, "weather") then WeatherIntent(m)
    else if StartsWith(m, "alert") then AlertIntent(m)
    else if Contains(m, "location") || Contains(m, "where am i") then WhereAmI
    else if Contains(m, "laytime") then LaytimeIntent(m)
    else General(m)
  }

  // ---------------------------------------------------------------------------
  // Replies
  // ---------------------------------------------------------------------------

  /** Python truthiness of an optional float: present and non-zero. */
  predicate Truthy(x: Option<real>) {
    x.Some? && x.value != 0.0
  }

  function CouldNotResolve(a: string, b: string): string {
    "Could not resolve '" + a + "' or '" + b + "'."
  }

  /** `disp or port`: the resolved display name unless it is missing or empty. */
  function ShownPort(r: Resolution, port: string): string {
    if r.Resolved? && r.display != "" then r.display else port
  }

  /** The distance command's reply: the distance when both names resolve, else both names quoted. */
  function DistanceReplyText(env: Env, a: string, b: string): string {
    DistanceAnswer(ResolvePortSpec(env.geocode, a), ResolvePortSpec(env.geocode, b), env.nauticalMiles, a, b)
  }

  /** The distance reply for the two resolutions of the names `a` and `b`. */
  function DistanceAnswer(f: Resolution, t: Resolution, nauticalMiles: (Coords, Coords) -> string,
                          a: string, b: string): string {
    if f.Resolved? && t.Resolved? then
      "Distance from " + f.display + " to " + t.display + " is "
      + nauticalMiles(f.coords, t.coords) + " nautical miles."
    else CouldNotResolve(a, b)
  }

  /** The weather at the caller's own position, when `lat and lon` are both truthy. */
  function HereWeatherReplyText(env: Env): string {
    var loc := env.ipLocation;
    if Truthy(loc.lat) && Truthy(loc.lon) then
      loc.text + " Weather: " + env.weather(loc.lat.value, loc.lon.value)
    else loc.text
  }

  /** The weather at a named port. */
  function PortWeatherReplyText(env: Env, p: string): string {
    var r := ResolvePortSpec(env.geocode, p);
    if r.Resolved? then "Weather at " + r.display + ": " + env.weather(r.coords.lat, r.coords.lon)
    else "Could not find '" + p + "'."
  }

  /** The alerts for the port as resolved: the key is the shown name, lowered. */
  function AlertsReplyText(env: Env, port: string): string {
    var shown := ShownPort(ResolvePortSpec(env.geocode, port), port);
    "Alerts at " + Title(shown) + ": " + Join(" ", AlertsFor(Lower(shown)))
  }

  /** The laytime for a port, or the list of ports the table knows. */
  function LaytimeReplyText(port: string): string {
    var hours := LaytimeHours(port);
    if hours.Some? && hours.value != 0 then
      "Laytime at " + Title(port) + " is " + NatToString(hours.value) + " hours."
    else "No laytime data for " + port + ". Known: " + Join(", ", Keys(LaytimeRules))
  }

  /** The reply text for an intent. */
  function Reply(env: Env, intent: Intent, engine: string): string {
    match intent
    case DistanceUsage => UsageReply
    case DistanceBetween(a, b) => DistanceReplyText(env, a, b)
    case WeatherHere => HereWeatherReplyText(env)
    case WeatherAt(p) => PortWeatherReplyText(env, p)
    case AlertsAt(port) => AlertsReplyText(env, port)
    case WhereAmI => env.ipLocation.text
    case LaytimeAt(port) => LaytimeReplyText(port)
    case LaytimeDefinition => LaytimeDefinitionReply
    case General(m) => env.assistant(m, engine)
  }

  /** `chat()`: the reply to a message and an engine name. */
  function ChatReply(env: Env, message: string, engine: string): string {
    Reply(env, Route(NormalizeMessage(message)), NormalizeMessage(engine))
  }
}
