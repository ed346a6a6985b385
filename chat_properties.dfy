/**
 * What the `/chat` handler promises, stated about `Chat.Route`,
 * `Chat.Reply` and `Chat.ChatReply`.
 */
module ChatProperties {
  import opened Wrappers
  import opened PyStr
  import opened AtPattern
  import opened Ports
  import opened Advisories
  import opened Chat

  // ---------------------------------------------------------------------------
  // Normalisation of the message
  // ---------------------------------------------------------------------------

  /** Surrounding whitespace and letter case never change the reply. */
  lemma ChatIgnoresCaseAndPadding(env: Env, x: string, message: string, y: string, engine: string)
    requires AllSpace(x) && AllSpace(y)
    ensures ChatReply(env, x + message + y, engine) == ChatReply(env, message, engine)
    ensures ChatReply(env, Lower(message), engine) == ChatReply(env, message, engine)
  {
    StripPadded(x, message, y);
    StripLowerCommute(message);
    LowerIdempotent(Strip(message));
  }

  // ---------------------------------------------------------------------------
  // Dispatch
  // ---------------------------------------------------------------------------

  /**
   * The branches are tried in a fixed order and the first that matches
   * answers: prefix "distance", prefix "weather", prefix "alert", the words
   * "location" or "where am i" anywhere, the word "laytime" anywhere, and
   * only then the language model.
   */
  lemma RouteOrder(m: string)
    ensures (Route(m).DistanceUsage? || Route(m).DistanceBetween?) <==> StartsWith(m, "distance")
    ensures (Route(m).WeatherHere? || Route(m).WeatherAt?) <==>
      !StartsWith(m, "distance") && StartsWith(m, "weather")
    ensures Route(m).AlertsAt? <==>
      !StartsWith(m, "distance") && !StartsWith(m, "weather") && StartsWith(m, "alert")
    ensures Route(m).WhereAmI? <==>
      && !StartsWith(m, "distance") && !StartsWith(m, "weather") && !StartsWith(m, "alert")
      && (Contains(m, "location") || Contains(m, "where am i"))
    ensures (Route(m).LaytimeAt? || Route(m).LaytimeDefinition?) <==>
      && !StartsWith(m, "distance") && !StartsWith(m, "weather") && !StartsWith(m, "alert")
      && !Contains(m, "location") && !Contains(m, "where am i") && Contains(m, "laytime")
    ensures Route(m).General? <==>
      && !StartsWith(m, "distance") && !StartsWith(m, "weather") && !StartsWith(m, "alert")
      && !Contains(m, "location") && !Contains(m, "where am i") && !Contains(m, "laytime")
    ensures Route(m).General? ==> Route(m).message == m
  {
  }

  // ---------------------------------------------------------------------------
  // distance [from] A to B
  // ---------------------------------------------------------------------------

  /**
   * Splitting a stripped text at its first " to " leaves two non-empty,
   * stripped names, and the first one holds no " to ".
   */
  lemma SplitAtFirstTo(txt: string)
    requires IsStripped(txt) && Contains(txt, " to ")
    ensures var parts := SplitOnce(txt, " to ");
      && Strip(parts[0]) != [] && Strip(parts[1]) != []
      && !Contains(Strip(parts[0]), " to ")
      && txt == parts[0] + " to " + parts[1]
      && !Contains(parts[0], " to ")
  {
    SplitOnceJoin(txt, " to ");
    var parts := SplitOnce(txt, " to ");
    var i := Find(txt, " to ").value;
    assert parts[0] == txt[..i] && parts[1] == txt[i + 4..];
    // txt is stripped, so " to " can neither start it nor end it
    assert txt[i] == ' ' && txt[i + 3] == ' ';
    assert i > 0;
    assert i + 4 < |txt|;
    assert parts[0][0] == txt[0];
    assert parts[1][|parts[1]| - 1] == txt[|txt| - 1];
    if Strip(parts[0]) == [] {
      StripEmpty(parts[0]);
    }
    if Strip(parts[1]) == [] {
      StripEmpty(parts[1]);
    }
    if Contains(Strip(parts[0]), " to ") {
      ContainsOfStrip(parts[0], " to ");
    }
  }

  /**
   * The command word is cut off the front, then an optional "from ", and the
   * rest is split at its FIRST " to ": both names are non-empty and stripped,
   * and the first one never contains " to ". Without " to " the reply is the
   * usage line.
   */
  lemma DistanceCommand(m: string)
    requires StartsWith(m, "distance")
    ensures var t := Strip(m[8..]);
      DistanceText(m) == if StartsWith(t, "from ") then Strip(t[5..]) else t
    ensures Route(m) == DistanceUsage <==> !Contains(DistanceText(m), " to ")
    ensures Route(m).DistanceBetween? ==>
      && Route(m).fromName != "" && Route(m).toName != ""
      && IsStripped(Route(m).fromName) && IsStripped(Route(m).toName)
      && !Contains(Route(m).fromName, " to ")
    ensures Route(m).DistanceBetween? ==> exists x, y ::
      && DistanceText(m) == x + " to " + y
      && !Contains(x, " to ")
      && Strip(x) == Route(m).fromName && Strip(y) == Route(m).toName
  {
    ReplacePrefix(m, "distance");
    var txt := DistanceText(m);
    if Contains(txt, " to ") {
      SplitAtFirstTo(txt);
      var parts := SplitOnce(txt, " to ");
      assert Route(m) == DistanceBetween(Strip(parts[0]), Strip(parts[1]));
    }
  }

  // ---------------------------------------------------------------------------
  // weather [at] P
  // ---------------------------------------------------------------------------

  /**
   * After "weather" and an optional "at ", an empty phrase or one that says
   * "my location" asks for the caller's own position; any other phrase is
   * looked up as a port.
   */
  lemma WeatherCommand(m: string)
    requires StartsWith(m, "weather")
    ensures var p := Strip(m[7..]);
      WeatherPhrase(m) == if StartsWith(p, "at ") then Strip(p[3..]) else p
    ensures Route(m) == WeatherHere <==> WeatherPhrase(m) == "" || Contains(WeatherPhrase(m), "my location")
    ensures Route(m) != WeatherHere ==> Route(m) == WeatherAt(WeatherPhrase(m))
  {
    ReplacePrefix(m, "weather");
    assert !StartsWith(m, "distance") by {
      assert m[0] == 'w';
    }
  }

  // ---------------------------------------------------------------------------
  // alert ... at P   and   laytime ... at P
  // ---------------------------------------------------------------------------

  /** An alert message without "at " asks about Mumbai. */
  lemma AlertDefaultsToMumbai(m: string)
    requires StartsWith(m, "alert") && !Contains(m, "at ")
    ensures Route(m) == AlertsAt("mumbai")
  {
    assert !StartsWith(m, "distance") && !StartsWith(m, "weather") by {
      assert m[0] == 'a';
    }
    SearchAtNeedsAt(m);
  }

  /** On one line, the alert's port is the stripped text after the leftmost "at ". */
  lemma AlertPortAfterLeftmostAt(m: string)
    requires StartsWith(m, "alert") && Contains(m, "at ")
    requires '\n' !in m && IsStripped(m)
    ensures Route(m) == AlertsAt(Strip(m[Find(m, "at ").value + 3..]))
  {
    assert !StartsWith(m, "distance") && !StartsWith(m, "weather") by {
      assert m[0] == 'a';
    }
    SearchAtOneLine(m);
  }

  /**
   * On one line, the laytime command's port is the stripped text after the
   * leftmost "at "; without "at " the reply is the definition of laytime.
   */
  lemma LaytimePortAfterLeftmostAt(m: string)
    requires Route(m).LaytimeAt? || Route(m).LaytimeDefinition?
    requires '\n' !in m && IsStripped(m)
    ensures Route(m) == match Find(m, "at ")
      case None => LaytimeDefinition
      case Some(i) => LaytimeAt(Lower(Strip(m[i + 3..])))
  {
    RouteOrder(m);
    SearchAtOneLine(m);
  }

  /**
   * The leftmost "at " may end a longer word: in "what laytime at mumbai"
   * it is the end of "what", so the port asked about is "laytime at mumbai".
   */
  lemma LaytimeLeftmostAtInWord()
    ensures Route("what laytime at mumbai") == LaytimeAt("laytime at mumbai")
  {
    var m := "what laytime at mumbai";
    ExampleRoutesToLaytime(m);
    ExampleFindsAt(m);
    ExampleLine(m);
    SearchAtOneLine(m);
    ExampleTail(m);
    StripOfStripped(m[5..]);
    LowerOfNoUpper(m[5..]);
  }

  lemma ExampleFindsAt(m: string)
    requires m == "what laytime at mumbai"
    ensures Find(m, "at ") == Some(2)
  {
    assert m[0..3][0] != "at "[0];
    assert m[1..4][0] != "at "[0];
    assert m[2] == 'a' && m[3] == 't' && m[4] == ' ';
    assert m[2..5] == "at ";
    assert OccursAt(m, "at ", 2) && !OccursAt(m, "at ", 0) && !OccursAt(m, "at ", 1);
    var r := Find(m, "at ");
    assert r.Some?;
    assert r.value == 2;
  }

  lemma ExampleLine(m: string)
    requires m == "what laytime at mumbai"
    ensures '\n' !in m && IsStripped(m)
  {
    assert forall i :: 0 <= i < |m| ==> m[i] != '\n';
  }

  lemma ExampleTail(m: string)
    requires m == "what laytime at mumbai"
    ensures m[5..] == "laytime at mumbai" && NoUpper(m[5..]) && IsStripped(m[5..])
  {
  }

  lemma ExampleRoutesToLaytime(m: string)
    requires m == "what laytime at mumbai"
    ensures Route(m) == LaytimeIntent(m)
  {
    ExampleNoCommandWord(m);
    NotContainsLocation(m);
    ExampleMentionsLaytime(m);
  }

  lemma ExampleNoCommandWord(m: string)
    requires m == "what laytime at mumbai"
    ensures !StartsWith(m, "distance") && !StartsWith(m, "weather") && !StartsWith(m, "alert")
  {
    assert m[..8][1] == 'h' && m[..7][0] == 'w' && m[..5][0] == 'w';
  }

  lemma ExampleMentionsLaytime(m: string)
    requires m == "what laytime at mumbai"
    ensures Contains(m, "laytime")
  {
    assert m[5..12] == "laytime";
    assert OccursAt(m, "laytime", 5);
    ContainsIff(m, "laytime");
  }

  /** "what laytime at mumbai" mentions neither "location" nor "where am i". */
  lemma NotContainsLocation(m: string)
    requires m == "what laytime at mumbai"
    ensures !Contains(m, "location") && !Contains(m, "where am i")
  {
    forall j | 0 <= j && j + 8 <= |m| ensures !OccursAt(m, "location", j) {
      assert m[j..j + 8][1] == m[j + 1];
    }
    forall j | 0 <= j && j + 10 <= |m| ensures !OccursAt(m, "where am i", j) {
      assert m[j..j + 10][0] == m[j] && m[j..j + 10][2] == m[j + 2];
    }
  }

  // ---------------------------------------------------------------------------
  // Replies
  // ---------------------------------------------------------------------------

  /**
   * A distance is reported only when both names resolve; otherwise the
   * reply names both inputs as they were typed.
   */
  lemma DistanceReply(f: Resolution, t: Resolution, nauticalMiles: (Coords, Coords) -> string,
                       a: string, b: string)
    ensures var reply := DistanceAnswer(f, t, nauticalMiles, a, b);
      && (f.Resolved? && t.Resolved? <==> StartsWith(reply, "Distance from "))
      && (f.Resolved? && t.Resolved? ==>
            reply == "Distance from " + f.display + " to " + t.display + " is "
                     + nauticalMiles(f.coords, t.coords) + " nautical miles.")
      && (!(f.Resolved? && t.Resolved?) <==> reply == CouldNotResolve(a, b))
  {
    var reply := DistanceAnswer(f, t, nauticalMiles, a, b);
    assert CouldNotResolve(a, b)[0] == 'C';
    if f.Resolved? && t.Resolved? {
      var p := "Distance from ";
      var m := nauticalMiles(f.coords, t.coords);
      assert p[..|p|] == p;
      StartsWithExtend(p, p, f.display);
      StartsWithExtend(p + f.display, p, " to ");
      StartsWithExtend(p + f.display + " to ", p, t.display);
      StartsWithExtend(p + f.display + " to " + t.display, p, " is ");
      StartsWithExtend(p + f.display + " to " + t.display + " is ", p, m);
      StartsWithExtend(p + f.display + " to " + t.display + " is " + m, p, " nautical miles.");
      assert reply[0] == reply[..|p|][0] == 'D';
    } else {
      assert !StartsWith(reply, "Distance from ") by {
        assert reply[0] == 'C';
      }
    }
  }

  /** A port phrase that does not resolve gets the not-found reply, quoting the phrase. */
  lemma WeatherAtReply(env: Env, p: string)
    ensures ResolvePortSpec(env.geocode, p).Unresolved? <==>
      PortWeatherReplyText(env, p) == "Could not find '" + p + "'."
    ensures p == "" ==> PortWeatherReplyText(env, p) == "Could not find ''."
  {
    var reply := PortWeatherReplyText(env, p);
    assert ("Could not find '" + p + "'.")[0] == 'C';
    if ResolvePortSpec(env.geocode, p).Resolved? {
      assert reply[0] == 'W';
    }
  }

  /**
   * The caller's own weather is added only when both coordinates are
   * truthy: a missing coordinate, or one that is exactly 0.0 (a vessel on
   * the equator or the prime meridian), leaves just the location sentence.
   */
  lemma HereWeatherReply(env: Env)
    ensures var loc := env.ipLocation;
      && (Truthy(loc.lat) && Truthy(loc.lon) ==>
            HereWeatherReplyText(env) == loc.text + " Weather: " + env.weather(loc.lat.value, loc.lon.value))
      && (HereWeatherReplyText(env) == loc.text <==> !(Truthy(loc.lat) && Truthy(loc.lon)))
    ensures env.ipLocation.lat == Some(0.0) ==> HereWeatherReplyText(env) == env.ipLocation.text
  {
    var loc := env.ipLocation;
    if Truthy(loc.lat) && Truthy(loc.lon) {
      assert |HereWeatherReplyText(env)| > |loc.text|;
    }
  }

  /** Anything no command claims goes to the assistant, normalised, with the normalised engine name. */
  lemma GeneralReply(env: Env, message: string, engine: string)
    requires Route(NormalizeMessage(message)).General?
    ensures ChatReply(env, message, engine) ==
      env.assistant(NormalizeMessage(message), NormalizeMessage(engine))
    ensures !Contains(NormalizeMessage(message), "laytime")
  {
    RouteOrder(NormalizeMessage(message));
  }

  /**
   * When the geocoder answers none of the three queries, the port as typed
   * picks the alerts, and lowering it first makes no difference.
   */
  lemma AlertsUnresolved(env: Env, port: string)
    requires ResolvePortSpec(env.geocode, port).Unresolved?
    ensures AlertsReplyText(env, port) == "Alerts at " + Title(port) + ": " + Join(" ", AlertsFor(port))
  {
    LowerIdempotent(port);
    assert PortKey(Lower(port)) == PortKey(port);
  }

  /** A known port gets its hours from the table, printed in decimal. */
  lemma LaytimeKnownReply(port: string, hours: nat)
    requires (port, hours) in LaytimeRules
    ensures LaytimeReplyText(port) == "Laytime at " + Title(port) + " is " + NatToString(hours) + " hours."
    ensures ParseNat(NatToString(hours)) == hours
  {
    LaytimeRulesUniqueKeys();
    LookupFinds(LaytimeRules, port, hours);
    LaytimeHoursPositive(port);
    ParseNatToString(hours);
  }

  /** An unknown port is told so, with every known port listed in table order. */
  lemma LaytimeUnknownReply(port: string)
    requires port !in Keys(LaytimeRules)
    ensures LaytimeReplyText(port) ==
      "No laytime data for " + port + ". Known: "
      + Join(", ", ["mumbai", "dubai", "singapore", "rotterdam", "shanghai"])
  {
    assert LaytimeHours(port).None?;
    LaytimeKeysInOrder();
  }

  /**
   * The alert key is the display name the resolver chose, lowered. When the
   * geocoder answers the normalised name itself, that name picks the alerts,
   * so an alias such as "bombay" brings up Mumbai's warning ...
   */
  lemma AlertsOnFirstAttempt(env: Env, port: string)
    requires port != "" && NormalizePortName(port) != ""
    requires env.geocode(NormalizePortName(port)).Some?
    ensures var q := NormalizePortName(port);
      AlertsReplyText(env, port) == "Alerts at " + Title(q) + ": " + Join(" ", AlertsFor(q))
  {
    var q := NormalizePortName(port);
    assert Attempts(q)[0] == q;
    ResolvePortFirstHit(env.geocode, port, 0);
    TitleIdempotent(q);
    LowerOfTitle(q);
    LowerOfNoUpper(q);
  }

  /**
   * ... but when only "Port of <name>" is answered, the key starts with
   * "port of", and the all-clear line is shown whatever the port ...
   */
  lemma AlertsOnSecondAttempt(env: Env, port: string)
    requires port != ""
    requires env.geocode(NormalizePortName(port)).None?
    requires env.geocode("Port of " + NormalizePortName(port)).Some?
    ensures AlertsReplyText(env, port) ==
      "Alerts at " + Title("Port of " + NormalizePortName(port)) + ": " + NoAlerts
  {
    var q := NormalizePortName(port);
    var a := "Port of " + q;
    assert Attempts(q)[1] == a;
    ResolvePortFirstHit(env.geocode, port, 1);
    TitleIdempotent(a);
    KeyKeepsEnds(Title(a), a);
  }

  /** ... and likewise when only "<name> port" is answered. */
  lemma AlertsOnThirdAttempt(env: Env, port: string)
    requires port != ""
    requires env.geocode(NormalizePortName(port)).None?
    requires env.geocode("Port of " + NormalizePortName(port)).None?
    requires env.geocode(NormalizePortName(port) + " port").Some?
    ensures AlertsReplyText(env, port) ==
      "Alerts at " + Title(NormalizePortName(port) + " port") + ": " + NoAlerts
  {
    var q := NormalizePortName(port);
    var a := q + " port";
    assert Attempts(q)[2] == a;
    ResolvePortFirstHit(env.geocode, port, 2);
    TitleIdempotent(a);
    KeyKeepsEnds(Title(a), a);
  }

  /**
   * The alert table's key for the title-cased form of `a` is the key of `a`
   * itself, and so draws no warning when `a` begins with a 'p' or ends in a 't'.
   */
  lemma KeyKeepsEnds(shown: string, a: string)
    requires shown == Title(a) && a != []
    requires (!IsSpace(a[0]) && LowerChar(a[0]) == 'p') || (!IsSpace(a[|a| - 1]) && LowerChar(a[|a| - 1]) == 't')
    ensures shown != "" && AlertsFor(Lower(shown)) == [NoAlerts]
  {
    LowerOfTitle(a);
    LowerIdempotent(a);
    assert PortKey(Lower(shown)) == PortKey(a);
    KeyNotWarned(a);
    var alerts := AlertsFor(Lower(shown));
    assert NoAlerts in alerts;
  }

  /** A key that starts with 'p' or ends in 't' is neither "mumbai" nor "dubai". */
  lemma KeyNotWarned(a: string)
    requires a != []
    requires (!IsSpace(a[0]) && LowerChar(a[0]) == 'p') || (!IsSpace(a[|a| - 1]) && LowerChar(a[|a| - 1]) == 't')
    ensures PortKey(a) != "mumbai" && PortKey(a) != "dubai"
  {
    var l := Lower(a);
    var k := PortKey(a);
    if !IsSpace(a[0]) && LowerChar(a[0]) == 'p' {
      assert l[0] == 'p';
      StripKeepsFirst(l);
      assert k[0] == 'p';
    } else {
      assert l[|l| - 1] == 't';
      StripKeepsLast(l);
      assert k[|k| - 1] == 't';
    }
  }

  /** Mumbai's cyclone warning, reached by its old name. */
  lemma AlertsForBombay(env: Env)
    requires env.geocode("mumbai").Some?
    ensures AlertsReplyText(env, "bombay") == "Alerts at " + "Mumbai" + ": " + CycloneAlert
  {
    BombayIsMumbai();
    AlertsOnFirstAttempt(env, "bombay");
    TitleMumbai();
    MumbaiHasCyclone();
  }

  lemma BombayIsMumbai()
    ensures NormalizePortName("bombay") == "mumbai"
  {
    CanonicalFixed("bombay");
  }

  lemma TitleMumbai()
    ensures Title("mumbai") == "Mumbai"
  {
  }

  lemma MumbaiHasCyclone()
    ensures Join(" ", AlertsFor("mumbai")) == CycloneAlert
  {
    CanonicalFixed("mumbai");
  }
}
