# Maritime assistant chat backend: the text-command layer

This project models, in Dafny, the part of the maritime assistant's Flask
backend (`backend/app.py`) that turns a chat message into a reply:

- the sailor-friendly port alias table and `normalize_port_name`;
- `resolve_port`, which tries the normalised name, then "Port of <name>",
  then "<name> port" against a geocoder and keeps the first answer;
- the fixed advisory tables: `build_alerts` and `LAYTIME_RULES`;
- the `/chat` dispatcher: the message is stripped and lower-cased, routed by
  prefix (`distance`, `weather`, `alert`) and substring (`location` /
  `where am i`, `laytime`) tests, parsed by small hand-written parsers, and
  answered; anything else goes to the language model.

Everything outside the process is a parameter. A value of `Chat.Env` holds
the geocoder (`get_port_coordinates`), the weather service, the caller's
IP-derived location, the printed haversine distance and the language model,
each as a plain function, so the proofs hold for every possible answer of
those services.

Files:

- `wrappers.dfy`: `Option`.
- `pystr.dfy` (`PyStr`): the Python `str` operations used: `strip` (with
  Python's whitespace set), `lower`, `title`, `find` / `in`, `startswith`,
  `replace(x, "", 1)`, `split(sep, 1)`, `join` and `str(int)`.
- `at_pattern.dfy` (`AtPattern`): `re.search(r"at (.+)$", s).group(1)`, with
  Python's meaning of `.` (no line feed) and `$` (end, or before a final line
  feed), and a proof that the group found is exactly the regular
  expression's match.
- `ports.dfy` (`Ports`): aliases, normalisation and resolution. `resolve_port`
  is the method `Ports.ResolvePort`, whose loop is proved to compute the
  function `Ports.ResolvePortSpec` while also returning the exact list of
  geocoder queries it made.
- `advisories.dfy` (`Advisories`): the alert lines and the laytime table,
  kept as a sequence of pairs in the dictionary's order.
- `chat.dfy` (`Chat`): `Route` (message to `Intent`), the per-command reply
  texts, `Reply` and `ChatReply`.
- `chat_properties.dfy` (`ChatProperties`): what the handler promises.

Behaviour of the code that the model keeps and states as lemmas:

- The laytime and alert commands take the port after the LEFTMOST "at ",
  even when those letters end a word: "what laytime at mumbai" asks for
  the port "laytime at mumbai" (`ChatProperties.LaytimeLeftmostAtInWord`).
- The alert key is the display name the resolver chose, lowered. When only
  "Port of <name>" or "<name> port" is answered, the key is no table key,
  and the all-clear line is shown even for Mumbai or Dubai
  (`ChatProperties.AlertsOnSecondAttempt`,
  `ChatProperties.AlertsOnThirdAttempt`).
- A coordinate of exactly 0.0 counts as missing for the "weather" command
  (`ChatProperties.HereWeatherReply`).

The design description of the system mentions a marine-weather resolver
that probes an offset grid and falls back to land weather. No such resolver
exists in `backend/app.py` or `backend/api_helpers.py`: weather is a single
call. The model follows the code.

## Model

| member | source | states |
|---|---|---|
| PyStr.Strip | backend/app.py:167 | `strip()` returns a string that starts and ends with non-whitespace and is no longer than its input |
| PyStr.StripSplit | backend/app.py:167 | the input is the stripped string with only whitespace before and after it |
| PyStr.StripUnique | backend/app.py:167 | any whitespace-padded stripped string strips back to itself: the reference definition of `strip()` |
| PyStr.StripPadded | backend/app.py:167 | extra whitespace around a string does not change what it strips to |
| PyStr.StripEmpty | backend/app.py:167 | only an all-whitespace string strips to the empty string |
| PyStr.StripIdempotent | backend/app.py:167 | stripping twice is stripping once |
| PyStr.Lower | backend/app.py:167 | `lower()` keeps the length and lowers every character |
| PyStr.LowerHasNoUpper | backend/app.py:167 | the result of `lower()` has no upper-case letter |
| PyStr.LowerIdempotent | backend/app.py:167 | lowering twice is lowering once |
| PyStr.StripLowerCommute | backend/app.py:106 | `lower().strip()` (port key) equals `strip().lower()` (chat message) |
| PyStr.CanonicalFixed | backend/app.py:106 | a stripped lower-case name is its own key |
| PyStr.NormalizeKeyIdempotent | backend/app.py:106 | computing the key of a key changes nothing |
| PyStr.Title | backend/app.py:116 | `title()` keeps the length |
| PyStr.LowerOfTitle | backend/app.py:203-205 | `title()` only changes case: lowering its result is lowering its input |
| PyStr.TitleIdempotent | backend/app.py:205 | `title()` of a title-cased display name changes nothing |
| PyStr.FindFrom | backend/app.py:175 | the index found is an occurrence with none before it; none found means no occurrence |
| PyStr.ContainsIff | backend/app.py:175 | `p in s` holds exactly when `p` occurs at some index |
| PyStr.ContainsOfStrip | backend/app.py:177 | a stripped string contains only what the string contains |
| PyStr.ReplacePrefix | backend/app.py:172 | `replace(word, "", 1)` on a message that starts with the word removes that prefix |
| PyStr.SplitOnce | backend/app.py:177 | `split(sep, 1)` gives one or two parts, two exactly when `sep` occurs |
| PyStr.SplitOnceJoin | backend/app.py:177 | the two parts joined by the separator give the input back, and the first holds no separator |
| PyStr.NatToString | backend/app.py:216 | `str(hours)` is a non-empty run of digits without a leading zero |
| PyStr.ParseNatToString | backend/app.py:216 | reading the printed hours back gives the hours |
| AtPattern.GroupAtIff | backend/app.py:201 | the group taken at a position is a match of `(.+)$` there, and the only one |
| AtPattern.MatchStart | backend/app.py:201 | the search starts at the leftmost position where the whole pattern matches |
| AtPattern.SearchAtSound | backend/app.py:201 | a returned group follows an "at " and runs to the end anchor without a line feed |
| AtPattern.SearchAtNeedsAt | backend/app.py:201-202 | without "at " the search fails, so the caller's default applies |
| AtPattern.SearchAtOneLine | backend/app.py:213-214 | on one line, the group is everything after the leftmost "at " |
| Ports.AliasTargetsAreNotKeys | backend/app.py:38-52 | no alias leads to another alias |
| Ports.AliasTargetsLowerCase | backend/app.py:38-52 | every alias target is lower-case |
| Ports.AliasTargetsStripped | backend/app.py:38-52 | every alias target has no surrounding whitespace |
| Ports.AliasTargetsCanonical | backend/app.py:38-52 | every alias target is a canonical key and not itself an alias |
| Ports.PortKey | backend/app.py:106 | the lookup key is lower-case and stripped |
| Ports.NormalizePortName | backend/app.py:105-107 | the alias target when the key is an alias, else the key; always lower-case and stripped |
| Ports.NormalizeBlank | backend/app.py:105-107 | an empty or all-whitespace name normalises to "" |
| Ports.NormalizeIdempotent | backend/app.py:105-107 | normalising a normalised name changes nothing |
| Ports.Attempts | backend/app.py:113 | exactly three queries are tried |
| Ports.FirstAnswered | backend/app.py:113-116 | the index chosen is the first answered query; all before it are unanswered |
| Ports.FirstAnsweredAt | backend/app.py:113-116 | the first answered query is determined by the answers alone |
| Ports.ResolvePortSpec | backend/app.py:109-117 | an empty name is unresolved; otherwise resolved exactly when the geocoder answers one of the three queries |
| Ports.ResolvePortFirstHit | backend/app.py:113-116 | the first answered query, title-cased, is the display name, with that query's coordinates |
| Ports.ResolvePort | backend/app.py:109-117 | the loop returns `ResolvePortSpec`; it queries nothing for an empty name, otherwise a prefix of the three attempts in order, stopping at the first answer, and all three when none answers |
| Advisories.AlertsFor | backend/app.py:80-87 | exactly one line: the cyclone warning for key "mumbai", the heat warning for "dubai", the all-clear for every other key |
| Advisories.BuildAlerts | backend/app.py:80-87 | the appended list equals `AlertsFor` of the key, so it is never empty |
| Advisories.Keys | backend/app.py:218 | iterating the table yields its keys in order |
| Advisories.Lookup | backend/app.py:215 | `get` returns a stored value for the key, and nothing exactly when the key is absent |
| Advisories.LookupFinds | backend/app.py:215 | in a table without repeated keys, `get` finds each stored pair's own value |
| Advisories.LaytimeRulesUniqueKeys | backend/app.py:55-61 | the laytime table repeats no port |
| Advisories.LaytimeHoursPositive | backend/app.py:55-61 | every listed port has positive hours, so `if hours:` fails only for unknown ports |
| Advisories.LaytimeKeysInOrder | backend/app.py:55-61 | the known ports in table order are mumbai, dubai, singapore, rotterdam, shanghai |
| Chat.DistanceText | backend/app.py:172-174 | the text after "distance", without a leading "from ", is stripped |
| Chat.WeatherPhrase | backend/app.py:186-188 | the phrase after "weather", without a leading "at ", is stripped |
| ChatProperties.ChatIgnoresCaseAndPadding | backend/app.py:167 | surrounding whitespace and letter case of the message never change the reply |
| ChatProperties.RouteOrder | backend/app.py:171-222 | the command chosen is that of the first test that passes: distance, weather, alert, location, laytime, then the assistant |
| ChatProperties.SplitAtFirstTo | backend/app.py:177 | splitting a stripped text at its first " to " gives two non-empty names, the first without " to " |
| ChatProperties.DistanceCommand | backend/app.py:171-177 | the distance text drops "distance" and an optional "from "; no " to " gives the usage reply; otherwise both names are non-empty, stripped, and split at the first " to " |
| ChatProperties.DistanceReply | backend/app.py:178-183 | a "Distance from" reply comes exactly when both names resolve; otherwise the reply quotes both names |
| ChatProperties.WeatherCommand | backend/app.py:185-190 | an empty phrase or one with "my location" asks for the caller's weather; any other phrase is looked up |
| ChatProperties.HereWeatherReply | backend/app.py:191-194 | the weather is added exactly when both coordinates are truthy; a 0.0 latitude gives only the location text |
| ChatProperties.WeatherAtReply | backend/app.py:195-198 | an unresolved phrase, and only that, gives the not-found reply quoting it |
| ChatProperties.AlertDefaultsToMumbai | backend/app.py:200-202 | an alert message without "at " asks about Mumbai |
| ChatProperties.AlertPortAfterLeftmostAt | backend/app.py:201-202 | on one line, the alert's port is the stripped text after the leftmost "at " |
| ChatProperties.AlertsOnFirstAttempt | backend/app.py:203-205 | when the normalised name is answered, that name picks the alerts |
| ChatProperties.AlertsOnSecondAttempt | backend/app.py:203-205 | when only "Port of <name>" is answered, the all-clear line is shown |
| ChatProperties.AlertsOnThirdAttempt | backend/app.py:203-205 | when only "<name> port" is answered, the all-clear line is shown |
| ChatProperties.KeyKeepsEnds | backend/app.py:204 | a display name starting with "p" or ending in "t" keys no warning |
| ChatProperties.AlertsUnresolved | backend/app.py:203-205 | when nothing resolves, the port as typed picks the alerts and titles the reply |
| ChatProperties.AlertsForBombay | backend/app.py:203-205 | "bombay" reaches Mumbai's cyclone warning through its alias |
| ChatProperties.LaytimePortAfterLeftmostAt | backend/app.py:212-220 | on one line, the laytime port is the lowered, stripped text after the leftmost "at "; without "at " the definition is given |
| ChatProperties.LaytimeLeftmostAtInWord | backend/app.py:213-214 | "what laytime at mumbai" asks for the port "laytime at mumbai" |
| ChatProperties.LaytimeKnownReply | backend/app.py:215-217 | a listed port gets its table hours, printed in decimal |
| ChatProperties.LaytimeUnknownReply | backend/app.py:218 | an unknown port is told so, with every known port listed in table order |
| ChatProperties.GeneralReply | backend/app.py:222 | anything no command claims goes to the assistant, with the normalised message and engine |

## Left out

- `haversine_nm`, `_to_radians` and `round(nm, 1)`: floating-point trigonometry; `Env.nauticalMiles` stands for the printed result.
- `get_weather`, `get_location_from_ip` and `ask_llm_general`: network and language-model calls; they are fields of `Env`, and the proofs hold for any answers.
- `get_port_coordinates` (backend/api_helpers.py): a network lookup; it is the `Geocoder` parameter.
- `upload_cp` and the clause extraction behind it: file handling, PDF parsing and OCR.
- Flask routing, CORS, `jsonify` and the `except` branch of `chat()`: an exception raised by an outside service, which the code turns into an "Error: ..." reply, is not modelled; every `Env` function returns.
- A missing, `None` or non-string `message` or `engine` in the JSON payload: the model takes strings; `(x or "")` on a missing value is the empty string, which the model covers.
- PyStr.Lower and PyStr.Title: ASCII letters only; Python's Unicode case mappings for other letters are not modelled.
- Formatting of floats and coordinates inside the reply texts: the outside functions return the printed text.
- `backend/normalize_ports.py`: a one-off data-cleaning script, not part of the request path.
