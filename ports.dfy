/**
 * Port names: the sailor-friendly alias table, `normalize_port_name` and
 * `resolve_port` (backend/app.py:38-52, backend/app.py:105-117).
 *
 * The geocoder `get_port_coordinates` (a Nominatim lookup over the network)
 * is a parameter: a function from query text to coordinates or nothing.
 */
module Ports {
  import opened Wrappers
  import opened PyStr

  /** A latitude/longitude pair as the geocoder returns it. */
  datatype Coords = Coords(lat: real, lon: real)

  /** `get_port_coordinates(query)` as the resolver sees it. */
  type Geocoder = string -> Option<Coords>

  /** What `resolve_port` returns: `(attempt.title(), coords)` or `(None, None)`. */
  datatype Resolution = Unresolved | Resolved(display: string, coords: Coords)

  /** `PORT_ALIASES`: old or informal names mapped to the names the geocoder knows. */
  const PortAliases: map<string, string> := map[
    "kandla" := "deendayal",
    "bombay" := "mumbai",
    "cochin" := "kochi",
    "madras" := "chennai",
    "calcutta" := "kolkata",
    "vizag" := "visakhapatnam",
    "new york" := "new york harbor",
    "rotterd" := "rotterdam",
    "singa" := "singapore",
    "shangai" := "shanghai",
    "abudhabi" := "abu dhabi",
    "jebelali" := "jebel ali",
    "kandla port" := "deendayal"
  ]

  /** The distinct names the aliases lead to. */
  const AliasTargets: set<string> := {
    "deendayal", "mumbai", "kochi", "chennai", "kolkata", "visakhapatnam",
    "new york harbor", "rotterdam", "singapore", "shanghai", "abu dhabi", "jebel ali"
  }

  /** No alias leads to another alias. */
  lemma AliasTargetsAreNotKeys()
    ensures forall k :: k in PortAliases ==> PortAliases[k] in AliasTargets && PortAliases[k] !in PortAliases
  {
  }

  lemma AliasTargetsLowerCase()
    ensures forall v :: v in AliasTargets ==> NoUpper(v)
  {
  }

  lemma AliasTargetsStripped()
    ensures forall v :: v in AliasTargets ==> IsStripped(v)
  {
  }

  /** Every alias target is already lower-case, stripped, and not itself an alias. */
  lemma AliasTargetsCanonical()
    ensures forall k :: k in PortAliases ==> PortAliases[k] !in PortAliases
    ensures forall k :: k in PortAliases ==> NoUpper(PortAliases[k]) && IsStripped(PortAliases[k])
  {
    AliasTargetsAreNotKeys();
    AliasTargetsLowerCase();
    AliasTargetsStripped();
  }

  /** The lookup key `normalize_port_name` derives from a name: `name.lower().strip()`. */
  function PortKey(name: string): (k: string)
    ensures NoUpper(k) && IsStripped(k)
  {
    StripLowerCommute(name);
    LowerHasNoUpper(Strip(name));
    Strip(Lower(name))
  }

  /** `normalize_port_name`: the alias target of the key if it has one, else the key itself. */
  function NormalizePortName(name: string): (r: string)
    ensures NoUpper(r) && IsStripped(r)
    ensures r == (if PortKey(name) in PortAliases then PortAliases[PortKey(name)] else PortKey(name))
  {
    AliasTargetsCanonical();
    var raw := PortKey(name);
    if raw in PortAliases then PortAliases[raw] else raw
  }

  /** An empty or all-whitespace name normalises to the empty string. */
  lemma NormalizeBlank(name: string)
    requires AllSpace(name)
    ensures NormalizePortName(name) == ""
  {
    assert AllSpace(Lower(name));
    StripUnique(Lower(name), [], []);
    assert Lower(name) + [] + [] == Lower(name);
    assert "" !in PortAliases;
  }

  /** Normalising twice is normalising once: no alias target is an alias key. */
  lemma NormalizeIdempotent(name: string)
    ensures NormalizePortName(NormalizePortName(name)) == NormalizePortName(name)
  {
    var r := NormalizePortName(name);
    CanonicalFixed(r);
    AliasTargetsCanonical();
  }

  /** The three queries `resolve_port` tries, in order. */
  function Attempts(query: string): (qs: seq<string>)
    ensures |qs| == 3
  {
    [query, "Port of " + query, query + " port"]
  }

  /** The index of the first query the geocoder answers, or `|qs|` when it answers none. */
  function FirstAnswered(geocode: Geocoder, qs: seq<string>): (k: nat)
    ensures k <= |qs|
    ensures forall j :: 0 <= j < k ==> geocode(qs[j]).None?
    ensures k < |qs| ==> geocode(qs[k]).Some?
  {
    if qs == [] then 0
    else if geocode(qs[0]).Some? then 0
    else 1 + FirstAnswered(geocode, qs[1..])
  }

  /** The first-answer index is fixed by the answers alone. */
  lemma FirstAnsweredAt(geocode: Geocoder, qs: seq<string>, k: nat)
    requires k < |qs| && geocode(qs[k]).Some?
    requires forall j :: 0 <= j < k ==> geocode(qs[j]).None?
    ensures FirstAnswered(geocode, qs) == k
  {
    var f := FirstAnswered(geocode, qs);
    assert !(f < k);
  }

  /** What `resolve_port(name)` returns, as a function of the geocoder's answers. */
  function ResolvePortSpec(geocode: Geocoder, name: string): (r: Resolution)
    ensures name == "" ==> r == Unresolved
    ensures r.Resolved? <==>
      name != "" && exists q :: q in Attempts(NormalizePortName(name)) && geocode(q).Some?
  {
    if name == "" then Unresolved
    else
      var qs := Attempts(NormalizePortName(name));
      var k := FirstAnswered(geocode, qs);
      if k < |qs| then Resolved(Title(qs[k]), geocode(qs[k]).value) else Unresolved
  }

  /**
   * The attempts are ordered: the first query the geocoder answers decides
   * both the display name (that query, title-cased) and the coordinates.
   */
  lemma ResolvePortFirstHit(geocode: Geocoder, name: string, k: nat)
    requires name != "" && k < 3
    requires geocode(Attempts(NormalizePortName(name))[k]).Some?
    requires forall j :: 0 <= j < k ==> geocode(Attempts(NormalizePortName(name))[j]).None?
    ensures var a := Attempts(NormalizePortName(name))[k];
      ResolvePortSpec(geocode, name) == Resolved(Title(a), geocode(a).value)
  {
    FirstAnsweredAt(geocode, Attempts(NormalizePortName(name)), k);
  }

  /**
   * `resolve_port`: query the normalised name, then "Port of <name>", then
   * "<name> port", and stop at the first one the geocoder answers.
   * `queried` lists the geocoder calls made, in order.
   */
  method ResolvePort(geocode: Geocoder, name: string) returns (r: Resolution, queried: seq<string>)
    ensures r == ResolvePortSpec(geocode, name)
    ensures name == "" ==> queried == []
    ensures name != "" ==>
      && 1 <= |queried| <= 3
      && queried == Attempts(NormalizePortName(name))[..|queried|]
    ensures forall j :: 0 <= j < |queried| - 1 ==> geocode(queried[j]).None?
    ensures r.Resolved? <==> queried != [] && geocode(queried[|queried| - 1]).Some?
    ensures r.Resolved? ==> r.display == Title(queried[|queried| - 1])
    ensures r.Unresolved? && name != "" ==> |queried| == 3
  {
    if name == "" {
      return Unresolved, [];
    }
    var query := NormalizePortName(name);
    var attempts := Attempts(query);
    queried := [];
    for i := 0 to |attempts|
      invariant queried == attempts[..i]
      invariant forall j :: 0 <= j < i ==> geocode(attempts[j]).None?
    {
      var attempt := attempts[i];
      var coords := geocode(attempt);
      assert attempts[..i + 1] == attempts[..i] + [attempt];
      queried := queried + [attempt];
      if coords.Some? {
        FirstAnsweredAt(geocode, attempts, i);
        return Resolved(Title(attempt), coords.value), queried;
      }
    }
    assert FirstAnswered(geocode, attempts) == |attempts|;
    r := Unresolved;
  }
}
