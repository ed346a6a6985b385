/**
 * The two fixed tables behind the alert and laytime commands:
 * `LAYTIME_RULES` (backend/app.py:55-61) and `build_alerts`
 * (backend/app.py:80-87).
 */
module Advisories {
  import opened Wrappers
  import opened PyStr
  import Ports

  // ---------------------------------------------------------------------------
  // Alerts
  // ---------------------------------------------------------------------------

  const CycloneAlert: string := "\U{26A0} Cyclonic activity expected in Arabian Sea, exercise caution."
  const HeatAlert: string := "\U{26A0} High temperature alert, ensure crew hydration and engine cooling."
  const NoAlerts: string := "\U{2705} No major alerts reported."

  /**
   * The alerts for a port: exactly one line, the cyclone warning for Mumbai,
   * the heat warning for Dubai and the all-clear for every other key.
   */
  function AlertsFor(portKey: string): (alerts: seq<string>)
    ensures |alerts| == 1
    ensures CycloneAlert in alerts <==> Ports.PortKey(portKey) == "mumbai"
    ensures HeatAlert in alerts <==> Ports.PortKey(portKey) == "dubai"
    ensures NoAlerts in alerts <==> Ports.PortKey(portKey) != "mumbai" && Ports.PortKey(portKey) != "dubai"
  {
    var port := Ports.PortKey(portKey);
    if port == "mumbai" then [CycloneAlert]
    else if port == "dubai" then [HeatAlert]
    else [NoAlerts]
  }

  /**
   * `build_alerts`: collect the warnings that apply into a list, and fall
   * back to the all-clear line when none does.
   */
  method BuildAlerts(portKey: string) returns (alerts: seq<string>)
    ensures alerts == AlertsFor(portKey)
  {
    var port := Ports.PortKey(portKey);
    alerts := [];
    if port == "mumbai" {
      alerts := alerts + [CycloneAlert];
    }
    if port == "dubai" {
      alerts := alerts + [HeatAlert];
    }
    if alerts == [] {
      alerts := [NoAlerts];
    }
  }

  // ---------------------------------------------------------------------------
  // Laytime
  // ---------------------------------------------------------------------------

  /** `LAYTIME_RULES`: allowed laytime in hours per port, in the dictionary's order. */
  const LaytimeRules: seq<(string, nat)> := [
    ("mumbai", 72),
    ("dubai", 96),
    ("singapore", 84),
    ("rotterdam", 120),
    ("shanghai", 90)
  ]

  /** The keys of a table, in order: what iterating over the dictionary yields. */
  function Keys(table: seq<(string, nat)>): (ks: seq<string>)
    ensures |ks| == |table|
    ensures forall i :: 0 <= i < |table| ==> ks[i] == table[i].0
  {
    if table == [] then [] else [table[0].0] + Keys(table[1..])
  }

  /** `table.get(port)`: the hours stored under `port`, or `None`. */
  function Lookup(table: seq<(string, nat)>, port: string): (hours: Option<nat>)
    ensures hours.Some? ==> (port, hours.value) in table
    ensures hours.None? <==> port !in Keys(table)
  {
    if table == [] then None
    else if table[0].0 == port then Some(table[0].1)
    else Lookup(table[1..], port)
  }

  /** No key appears twice, as in any dictionary. */
  predicate UniqueKeys(table: seq<(string, nat)>) {
    forall i, j :: 0 <= i < j < |table| ==> table[i].0 != table[j].0
  }

  /** In a table without repeated keys, looking up a stored key finds its own value. */
  lemma LookupFinds(table: seq<(string, nat)>, port: string, hours: nat)
    requires UniqueKeys(table) && (port, hours) in table
    ensures Lookup(table, port) == Some(hours)
  {
    var found := Lookup(table, port);
    assert found.Some? by {
      assert port in Keys(table) by {
        var i :| 0 <= i < |table| && table[i] == (port, hours);
        assert Keys(table)[i] == port;
      }
    }
  }

  lemma LaytimeRulesUniqueKeys()
    ensures UniqueKeys(LaytimeRules)
  {
  }

  function LaytimeHours(port: string): Option<nat> {
    Lookup(LaytimeRules, port)
  }

  /** Every rule allows a positive number of hours, so `if hours:` fails only for a missing port. */
  lemma LaytimeHoursPositive(port: string)
    ensures LaytimeHours(port).Some? ==> LaytimeHours(port).value > 0
  {
  }

  lemma LaytimeKeysInOrder()
    ensures Keys(LaytimeRules) == ["mumbai", "dubai", "singapore", "rotterdam", "shanghai"]
  {
  }
}
