/** From evidence to a triage tier, computed once by the engine (backend/app/scoring/engine.py,
    signals.py) and once more by the report (triage.py, report.py). */
module Tier {
  import opened Wrappers

  datatype Evidence = Evidence(id: string, tier: int, field: string, normalized: Option<string>, raw: Option<string>)

  datatype Signal = Signal(name: string, layer: string, direction: string, weight: real, ids: set<string>)

  /** The text routines of the language: lower and upper case, trimming, reading an integer. */
  datatype Text = Text(lower: string -> string, upper: string -> string, strip: string -> string, toInt: string -> Option<int>)

  /** The reuse query: how many other submissions share one of these networks; None without a
      session or when the query fails. */
  type Reuse = set<string> -> Option<nat>

  // ----- Layer scores

  predicate Trusts(s: Signal) {
    s.direction == "trust"
  }

  /** The total weight of the trust signals, or of all the others. */
  function Weight(signals: seq<Signal>, trust: bool): real {
    if signals == [] then 0.0
    else
      var s := signals[|signals| - 1];
      Weight(signals[..|signals| - 1], trust) + if Trusts(s) == trust then s.weight else 0.0
  }

  function Clamp(x: real): real {
    if x < 0.0 then 0.0 else if x > 100.0 then 100.0 else x
  }

  /** 50, down 40 for each unit of trust and up 40 for each unit of anything else, in [0, 100]. */
  function LayerScoreOf(signals: seq<Signal>): real {
    Clamp(50.0 + 40.0 * (Weight(signals, false) - Weight(signals, true)))
  }

  /** The score of a layer: 50 without signals; one more signal moves it by 40 times its weight,
      down for trust and up for anything else, as far as 0 and 100. */
  lemma LayerScoreExactly(signals: seq<Signal>, s: Signal)
    ensures LayerScoreOf([]) == 50.0
    ensures var raw := 50.0 + 40.0 * (Weight(signals, false) - Weight(signals, true));
            var moved := if s.direction == "trust" then raw - 40.0 * s.weight else raw + 40.0 * s.weight;
            LayerScoreOf(signals + [s]) == if moved <= 0.0 then 0.0 else if moved >= 100.0 then 100.0 else moved
  {
    assert (signals + [s])[..|signals|] == signals;
  }

  /** `_layer_score_from_signals`. */
  method LayerScore(signals: seq<Signal>) returns (score: real)
    ensures score == LayerScoreOf(signals)
  {
    if signals == [] {
      return 50.0;
    }
    score := 50.0;
    for i := 0 to |signals|
      invariant score == 50.0 + 40.0 * (Weight(signals[..i], false) - Weight(signals[..i], true))
    {
      assert signals[..i + 1][..i] == signals[..i];
      var delta := signals[i].weight * 40.0;
      if Trusts(signals[i]) {
        score := score - delta;
      } else {
        score := score + delta;
      }
    }
    assert signals[..|signals|] == signals;
    score := Clamp(score);
  }

  predicate Only(signals: seq<Signal>, name: string) {
    |signals| == 1 && signals[0].name == name
  }

  function EntityScoreOf(signals: seq<Signal>): real {
    if Only(signals, "no_registry_evidence") then 60.0 else LayerScoreOf(signals)
  }

  function InfrastructureScoreOf(signals: seq<Signal>): real {
    if Only(signals, "infrastructure_data_unavailable") then 40.0 else LayerScoreOf(signals)
  }

  function RepresentationScoreOf(signals: seq<Signal>): real {
    if Only(signals, "no_field_comparisons") then 35.0
    else if Only(signals, "all_fields_unverified") then 45.0
    else LayerScoreOf(signals)
  }

  function RiskScoreOf(signals: seq<Signal>): real {
    if Only(signals, "fraud_signals_unavailable") then 35.0 else LayerScoreOf(signals)
  }

  const LAYER_WEIGHT := 0.25

  function OverallScore(entity: real, infrastructure: real, representation: real, risk: real): real {
    Clamp((entity * LAYER_WEIGHT + infrastructure * LAYER_WEIGHT + representation * LAYER_WEIGHT + risk * LAYER_WEIGHT)
          / (LAYER_WEIGHT + LAYER_WEIGHT + LAYER_WEIGHT + LAYER_WEIGHT))
  }

  // ----- The fraud and staging layer

  function Rows(rows: seq<Evidence>, field: string): seq<Evidence> {
    if rows == [] then []
    else (if rows[0].field == field then [rows[0]] else []) + Rows(rows[1..], field)
  }

  function InTier(rows: seq<Evidence>, tier: int): seq<Evidence> {
    if rows == [] then []
    else (if rows[0].tier == tier then [rows[0]] else []) + InTier(rows[1..], tier)
  }

  function Ids(rows: seq<Evidence>): set<string> {
    set i | 0 <= i < |rows| :: rows[i].id
  }

  /** `normalized_value or raw_value or default`. */
  function Value(e: Evidence, default: string): string {
    if e.normalized.Some? && e.normalized.value != "" then e.normalized.value
    else if e.raw.Some? && e.raw.value != "" then e.raw.value
    else default
  }

  predicate Says(text: Text, e: Evidence) {
    text.lower(Value(e, "")) in ["true", "1", "yes"]
  }

  predicate AnySays(text: Text, rows: seq<Evidence>) {
    exists i :: 0 <= i < |rows| && Says(text, rows[i])
  }

  function Elevated(name: string, weight: real, rows: seq<Evidence>): Signal {
    Signal(name, "risk", "elevated", weight, Ids(rows))
  }

  function Trust(name: string, weight: real, rows: seq<Evidence>): Signal {
    Signal(name, "risk", "trust", weight, Ids(rows))
  }

  function FirstOf<T>(s: seq<T>, n: nat): seq<T> {
    if |s| <= n then s else s[..n]
  }

  function Sanctions(rows: seq<Evidence>): seq<Signal> {
    var hits := Rows(rows, "sanctions_hit") + Rows(rows, "sanctions_risk_flag");
    if hits != [] then [Elevated("sanctions_hit_fraud_flag", 1.0, hits)] else []
  }

  function Staging(text: Text, rows: seq<Evidence>): seq<Signal> {
    var registered := Rows(InTier(rows, 2), "recently_registered");
    var noMx := Rows(InTier(rows, 2), "no_mx");
    if AnySays(text, registered) && AnySays(text, noMx) then
      [Elevated("recently_registered_no_mx", 0.7, registered + noMx)]
    else if AnySays(text, registered) then [Elevated("recently_registered_domain_risk", 0.4, registered)]
    else if AnySays(text, noMx) then [Elevated("no_mx_risk", 0.3, noMx)]
    else []
  }

  function Age(text: Text, rows: seq<Evidence>): seq<Signal> {
    var ages := Rows(InTier(rows, 2), "domain_age_days");
    if ages != [] && text.toInt(Value(ages[0], "0")).UnwrapOr(0) >= 365 * 3 then
      [Trust("long_lived_domain_trust", 0.5, ages[..1])]
    else []
  }

  function Anonymized(rows: seq<Evidence>): seq<Evidence> {
    Rows(rows, "ip_anonymized_network") + Rows(rows, "ip_hosting") + Rows(rows, "ip_vpn") + Rows(rows, "ip_proxy")
  }

  function Network(rows: seq<Evidence>): seq<Signal> {
    (if Anonymized(rows) != [] then [Elevated("datacenter_or_anonymized_ip", 0.5, Anonymized(rows))] else [])
    + (if Rows(rows, "ip_suspicious_asn") != [] then [Elevated("suspicious_asn", 0.3, Rows(rows, "ip_suspicious_asn"))] else [])
  }

  function Networks(text: Text, asns: seq<Evidence>): set<string> {
    set i | 0 <= i < |asns| && text.strip(Value(asns[i], "")) != "" :: text.upper(text.strip(Value(asns[i], "")))
  }

  function Shared(text: Text, rows: seq<Evidence>, reuse: Reuse): seq<Signal> {
    var asns := Rows(rows, "ip_asn");
    var networks := Networks(text, asns);
    if networks == {} || reuse(networks).None? then []
    else if reuse(networks).value >= 3 then [Elevated("ip_asn_reuse_high", 0.6, asns)]
    else if reuse(networks).value >= 1 then [Elevated("ip_asn_reuse", 0.3, asns)]
    else []
  }

  function Website(rows: seq<Evidence>): seq<Signal> {
    var web := InTier(rows, 3);
    var thin := Rows(web, "web_thin_footprint");
    var employees := Rows(web, "web_employee_footprint");
    var brand := Rows(web, "web_brand");
    (if thin != [] then [Elevated("thin_website", 0.35, thin)]
     else if employees != [] then [Trust("active_employee_footprint", 0.3, employees)]
     else [])
    + (if brand != [] && thin == [] then [Trust("stable_web_presence", 0.2, brand[..1])] else [])
  }

  function Observed(text: Text, rows: seq<Evidence>, reuse: Reuse): seq<Signal> {
    Sanctions(rows) + Staging(text, rows) + Age(text, rows) + Network(rows) + Shared(text, rows, reuse) + Website(rows)
  }

  function Fallback(rows: seq<Evidence>): Signal {
    var seen := InTier(rows, 2) + InTier(rows, 3);
    if seen == [] then Elevated("fraud_signals_unavailable", 0.2, [])
    else Trust("no_fraud_signals_detected", 0.5, FirstOf(seen, 2))
  }

  function FraudSignalsOf(text: Text, rows: seq<Evidence>, reuse: Reuse): seq<Signal> {
    var observed := Observed(text, rows, reuse);
    if observed == [] then [Fallback(rows)] else observed
  }

  /** `fraud_staging_risk_signals`: the catalogue, branch by branch. */
  method FraudSignals(text: Text, rows: seq<Evidence>, reuse: Reuse) returns (signals: seq<Signal>)
    ensures signals == FraudSignalsOf(text, rows, reuse)
  {
    hide Rows, InTier, Ids, AnySays, Networks;
    signals := [];
    var hits := Rows(rows, "sanctions_hit") + Rows(rows, "sanctions_risk_flag");
    if hits != [] {
      signals := signals + [Elevated("sanctions_hit_fraud_flag", 1.0, hits)];
    }

    var registered := Rows(InTier(rows, 2), "recently_registered");
    var noMx := Rows(InTier(rows, 2), "no_mx");
    if AnySays(text, registered) && AnySays(text, noMx) {
      signals := signals + [Elevated("recently_registered_no_mx", 0.7, registered + noMx)];
    } else if AnySays(text, registered) {
      signals := signals + [Elevated("recently_registered_domain_risk", 0.4, registered)];
    } else if AnySays(text, noMx) {
      signals := signals + [Elevated("no_mx_risk", 0.3, noMx)];
    }
    assert signals == Sanctions(rows) + Staging(text, rows);

    var ages := Rows(InTier(rows, 2), "domain_age_days");
    if ages != [] {
      var days := text.toInt(Value(ages[0], "0"));
      if days.Some? && days.value >= 1095 {
        signals := signals + [Trust("long_lived_domain_trust", 0.5, [ages[0]])];
        assert [ages[0]] == ages[..1];
      }
    }
    assert signals == Sanctions(rows) + Staging(text, rows) + Age(text, rows);

    var network := NetworkSignals(rows);
    var shared := SharedSignals(text, rows, reuse);
    var website := WebsiteSignals(rows);
    signals := signals + network + shared + website;

    if signals == [] {
      var seen := InTier(rows, 2) + InTier(rows, 3);
      if seen == [] {
        signals := [Signal("fraud_signals_unavailable", "risk", "elevated", 0.2, {})];
        NoIds();
      } else {
        signals := [Trust("no_fraud_signals_detected", 0.5, if |seen| <= 2 then seen else seen[..2])];
      }
    }
  }

  method NetworkSignals(rows: seq<Evidence>) returns (signals: seq<Signal>)
    ensures signals == Network(rows)
  {
    hide Rows, Ids;
    signals := [];
    var anonymized := Rows(rows, "ip_anonymized_network") + Rows(rows, "ip_hosting") + Rows(rows, "ip_vpn") + Rows(rows, "ip_proxy");
    if anonymized != [] {
      signals := signals + [Elevated("datacenter_or_anonymized_ip", 0.5, anonymized)];
    }
    var suspicious := Rows(rows, "ip_suspicious_asn");
    if suspicious != [] {
      signals := signals + [Elevated("suspicious_asn", 0.3, suspicious)];
    }
  }

  method SharedSignals(text: Text, rows: seq<Evidence>, reuse: Reuse) returns (signals: seq<Signal>)
    ensures signals == Shared(text, rows, reuse)
  {
    hide Rows, Ids, Networks;
    var asns := Rows(rows, "ip_asn");
    var networks := Networks(text, asns);
    if networks != {} {
      var others := reuse(networks);
      if others.Some? && others.value >= 3 {
        return [Elevated("ip_asn_reuse_high", 0.6, asns)];
      } else if others.Some? && others.value > 0 {
        return [Elevated("ip_asn_reuse", 0.3, asns)];
      }
    }
    return [];
  }

  method WebsiteSignals(rows: seq<Evidence>) returns (signals: seq<Signal>)
    ensures signals == Website(rows)
  {
    hide Rows, InTier, Ids;
    signals := [];
    var thin := Rows(InTier(rows, 3), "web_thin_footprint");
    var employees := Rows(InTier(rows, 3), "web_employee_footprint");
    var brand := Rows(InTier(rows, 3), "web_brand");
    if thin != [] {
      signals := signals + [Elevated("thin_website", 0.35, thin)];
    } else if employees != [] {
      signals := signals + [Trust("active_employee_footprint", 0.3, employees)];
    }
    if brand != [] && thin == [] {
      signals := signals + [Trust("stable_web_presence", 0.2, brand[..1])];
    }
  }

  /** The rows picked for a signal: those of its field, or of its tier, in order. */
  lemma {:induction false} RowsExactly(rows: seq<Evidence>, field: string, tier: int)
    ensures forall e :: e in Rows(rows, field) <==> e in rows && e.field == field
    ensures forall e :: e in InTier(rows, tier) <==> e in rows && e.tier == tier
  {
    if rows != [] {
      RowsExactly(rows[1..], field, tier);
      assert rows == [rows[0]] + rows[1..];
    }
  }

  /** What a row says: its normalized text, or the raw one when that is missing or empty. */
  predicate Reads(e: Evidence, value: string) {
    value != "" && (e.normalized == Some(value) || ((e.normalized == None || e.normalized == Some("")) && e.raw == Some(value)))
  }

  lemma ValueIsRead(e: Evidence, default: string, value: string)
    requires value != ""
    ensures Reads(e, value) ==> Value(e, default) == value
    ensures Value(e, "") == value ==> Reads(e, value)
  {
  }

  /** Some row says yes: its text in lower case is true, 1 or yes. */
  lemma SaysExactly(text: Text, rows: seq<Evidence>)
    requires text.lower("") == ""
    ensures AnySays(text, rows) <==>
            exists e, v :: e in rows && Reads(e, v) && (text.lower(v) == "true" || text.lower(v) == "1" || text.lower(v) == "yes")
  {
    if AnySays(text, rows) {
      var i :| 0 <= i < |rows| && Says(text, rows[i]);
      ValueIsRead(rows[i], "", Value(rows[i], ""));
      assert rows[i] in rows && Reads(rows[i], Value(rows[i], ""));
    }
    if e, v :| e in rows && Reads(e, v) && (text.lower(v) == "true" || text.lower(v) == "1" || text.lower(v) == "yes") {
      var i :| 0 <= i < |rows| && rows[i] == e;
      ValueIsRead(e, "", v);
      assert Says(text, rows[i]);
    }
  }

  /** The networks asked about: what the rows say, trimmed and in capitals, blank ones left out. */
  lemma NetworksExactly(text: Text, asns: seq<Evidence>, n: string)
    requires text.strip("") == ""
    ensures n in Networks(text, asns) <==>
            exists e, v :: e in asns && Reads(e, v) && text.strip(v) != "" && text.upper(text.strip(v)) == n
  {
    if n in Networks(text, asns) {
      var i :| 0 <= i < |asns| && text.strip(Value(asns[i], "")) != "" && text.upper(text.strip(Value(asns[i], ""))) == n;
      ValueIsRead(asns[i], "", Value(asns[i], ""));
      assert asns[i] in asns && Reads(asns[i], Value(asns[i], ""));
    }
    if e, v :| e in asns && Reads(e, v) && text.strip(v) != "" && text.upper(text.strip(v)) == n {
      var i :| 0 <= i < |asns| && asns[i] == e;
      ValueIsRead(e, "", v);
      assert text.upper(text.strip(Value(asns[i], ""))) in Networks(text, asns);
    }
  }

  // ----- How low the fraud layer can go

  lemma {:induction false} WeightOfConcat(a: seq<Signal>, b: seq<Signal>, trust: bool)
    ensures Weight(a + b, trust) == Weight(a, trust) + Weight(b, trust)
    decreases |b|
  {
    if b == [] {
      assert a + b == a;
    } else {
      assert (a + b)[..|a + b| - 1] == a + b[..|b| - 1];
      WeightOfConcat(a, b[..|b| - 1], trust);
    }
  }

  /** At most this much trust, and nothing that counts backwards. */
  predicate TrustAtMost(signals: seq<Signal>, most: real) {
    Weight(signals, true) <= most && Weight(signals, false) >= 0.0
  }

  lemma TrustAdds(a: seq<Signal>, b: seq<Signal>, p: real, q: real)
    requires TrustAtMost(a, p) && TrustAtMost(b, q)
    ensures TrustAtMost(a + b, p + q)
  {
    WeightOfConcat(a, b, true);
    WeightOfConcat(a, b, false);
  }

  lemma TrustOfOne(s: Signal)
    requires s.weight >= 0.0
    ensures TrustAtMost([s], if Trusts(s) then s.weight else 0.0)
  {
    assert [s][..0] == [];
  }

  lemma TrustOfNone()
    ensures TrustAtMost([], 0.0)
  {
  }

  /** At most one signal, with a weight up to `most` if it is one of trust. */
  predicate AtMostOne(signals: seq<Signal>, most: real) {
    |signals| <= 1 && forall i :: 0 <= i < |signals| ==> signals[i].weight >= 0.0 && (Trusts(signals[i]) ==> signals[i].weight <= most)
  }

  lemma TrustOfAtMostOne(signals: seq<Signal>, most: real)
    requires AtMostOne(signals, most) && most >= 0.0
    ensures TrustAtMost(signals, most)
  {
    if signals != [] {
      assert signals == [signals[0]];
      TrustOfOne(signals[0]);
    }
  }

  lemma WebsiteTrust(rows: seq<Evidence>)
    ensures TrustAtMost(Website(rows), 0.5)
  {
    hide Rows, InTier, Ids, TrustAtMost;
    var web := InTier(rows, 3);
    var thin := Rows(web, "web_thin_footprint");
    var employees := Rows(web, "web_employee_footprint");
    var brand := Rows(web, "web_brand");
    var footprint := if thin != [] then [Elevated("thin_website", 0.35, thin)]
      else if employees != [] then [Trust("active_employee_footprint", 0.3, employees)] else [];
    var presence := if brand != [] && thin == [] then [Trust("stable_web_presence", 0.2, brand[..1])] else [];
    TrustOfAtMostOne(footprint, 0.3);
    TrustOfAtMostOne(presence, 0.2);
    TrustAdds(footprint, presence, 0.3, 0.2);
  }

  lemma NetworkTrust(rows: seq<Evidence>)
    ensures TrustAtMost(Network(rows), 0.0)
  {
    hide Rows, InTier, Ids, TrustAtMost, Anonymized;
    var a := if Anonymized(rows) != [] then [Elevated("datacenter_or_anonymized_ip", 0.5, Anonymized(rows))] else [];
    var b := if Rows(rows, "ip_suspicious_asn") != [] then [Elevated("suspicious_asn", 0.3, Rows(rows, "ip_suspicious_asn"))] else [];
    TrustOfAtMostOne(a, 0.0);
    TrustOfAtMostOne(b, 0.0);
    TrustAdds(a, b, 0.0, 0.0);
  }

  lemma StagingTrust(text: Text, rows: seq<Evidence>)
    ensures TrustAtMost(Staging(text, rows), 0.0)
  {
    hide Rows, InTier, Ids, TrustAtMost, AnySays;
    TrustOfAtMostOne(Staging(text, rows), 0.0);
  }

  lemma SharedTrust(text: Text, rows: seq<Evidence>, reuse: Reuse)
    ensures TrustAtMost(Shared(text, rows, reuse), 0.0)
  {
    hide Rows, InTier, Ids, TrustAtMost, Networks;
    TrustOfAtMostOne(Shared(text, rows, reuse), 0.0);
  }

  lemma ObservedTrust(text: Text, rows: seq<Evidence>, reuse: Reuse)
    ensures TrustAtMost(Observed(text, rows, reuse), 1.0)
  {
    hide TrustAtMost, Staging, Network, Shared, Website, Rows, InTier, Ids;
    TrustOfAtMostOne(Sanctions(rows), 0.0);
    StagingTrust(text, rows);
    TrustAdds(Sanctions(rows), Staging(text, rows), 0.0, 0.0);
    TrustOfAtMostOne(Age(text, rows), 0.5);
    var s := Sanctions(rows) + Staging(text, rows);
    TrustAdds(s, Age(text, rows), 0.0, 0.5);
    NetworkTrust(rows);
    TrustAdds(s + Age(text, rows), Network(rows), 0.5, 0.0);
    SharedTrust(text, rows, reuse);
    TrustAdds(s + Age(text, rows) + Network(rows), Shared(text, rows, reuse), 0.5, 0.0);
    WebsiteTrust(rows);
    TrustAdds(s + Age(text, rows) + Network(rows) + Shared(text, rows, reuse), Website(rows), 0.5, 0.5);
  }

  /** No branch of the catalogue trusts by more than 1.0 in all. */
  lemma FraudTrustIsBounded(text: Text, rows: seq<Evidence>, reuse: Reuse)
    ensures Weight(FraudSignalsOf(text, rows, reuse), true) <= 1.0
    ensures Weight(FraudSignalsOf(text, rows, reuse), false) >= 0.0
  {
    hide Observed, InTier, Ids;
    ObservedTrust(text, rows, reuse);
    TrustOfOne(Fallback(rows));
  }

  lemma RiskAtLeastTen(text: Text, rows: seq<Evidence>, reuse: Reuse)
    ensures 10.0 <= RiskScoreOf(FraudSignalsOf(text, rows, reuse)) <= 100.0
  {
    hide FraudSignalsOf, Weight;
    FraudTrustIsBounded(text, rows, reuse);
  }

  // ----- Every signal can be traced to evidence

  /** The signal names rows of this run, at least one of them. */
  predicate Cites(rows: seq<Evidence>, s: Signal) {
    s.ids != {} && s.ids <= Ids(rows)
  }

  predicate AllCite(rows: seq<Evidence>, signals: seq<Signal>) {
    forall i :: 0 <= i < |signals| ==> Cites(rows, signals[i])
  }

  predicate Within(part: seq<Evidence>, rows: seq<Evidence>) {
    forall e :: e in part ==> e in rows
  }

  lemma {:induction false} RowsWithin(rows: seq<Evidence>, field: string)
    ensures Within(Rows(rows, field), rows)
  {
    if rows != [] {
      RowsWithin(rows[1..], field);
    }
  }

  lemma {:induction false} InTierWithin(rows: seq<Evidence>, tier: int)
    ensures Within(InTier(rows, tier), rows)
  {
    if rows != [] {
      InTierWithin(rows[1..], tier);
    }
  }

  lemma TierRowsWithin(rows: seq<Evidence>, tier: int, field: string)
    ensures Within(Rows(InTier(rows, tier), field), rows)
  {
    InTierWithin(rows, tier);
    RowsWithin(InTier(rows, tier), field);
  }

  lemma CitesWithin(part: seq<Evidence>, rows: seq<Evidence>)
    requires Within(part, rows) && part != []
    ensures Ids(part) != {} && Ids(part) <= Ids(rows)
  {
    assert part[0].id in Ids(part);
    forall x | x in Ids(part) ensures x in Ids(rows) {
      var i :| 0 <= i < |part| && part[i].id == x;
      assert part[i] in rows;
      var j :| 0 <= j < |rows| && rows[j] == part[i];
    }
  }

  lemma SanctionsCite(rows: seq<Evidence>)
    ensures AllCite(rows, Sanctions(rows))
  {
    hide Rows, Ids;
    RowsWithin(rows, "sanctions_hit");
    RowsWithin(rows, "sanctions_risk_flag");
    var hits := Rows(rows, "sanctions_hit") + Rows(rows, "sanctions_risk_flag");
    if hits != [] { CitesWithin(hits, rows); }
  }

  lemma StagingCites(text: Text, rows: seq<Evidence>)
    ensures AllCite(rows, Staging(text, rows))
  {
    hide Rows, InTier, Ids, Says;
    var registered := Rows(InTier(rows, 2), "recently_registered");
    var noMx := Rows(InTier(rows, 2), "no_mx");
    TierRowsWithin(rows, 2, "recently_registered");
    TierRowsWithin(rows, 2, "no_mx");
    if registered != [] { CitesWithin(registered, rows); }
    if noMx != [] { CitesWithin(noMx, rows); }
    if registered + noMx != [] { CitesWithin(registered + noMx, rows); }
  }

  lemma AgeCites(text: Text, rows: seq<Evidence>)
    ensures AllCite(rows, Age(text, rows))
  {
    hide Rows, InTier, Ids;
    var ages := Rows(InTier(rows, 2), "domain_age_days");
    TierRowsWithin(rows, 2, "domain_age_days");
    if ages != [] { CitesWithin(ages[..1], rows); }
  }

  lemma NetworkCites(rows: seq<Evidence>)
    ensures AllCite(rows, Network(rows))
  {
    hide Rows, InTier, Ids;
    RowsWithin(rows, "ip_anonymized_network");
    RowsWithin(rows, "ip_hosting");
    RowsWithin(rows, "ip_vpn");
    RowsWithin(rows, "ip_proxy");
    RowsWithin(rows, "ip_suspicious_asn");
    if Anonymized(rows) != [] { CitesWithin(Anonymized(rows), rows); }
    if Rows(rows, "ip_suspicious_asn") != [] { CitesWithin(Rows(rows, "ip_suspicious_asn"), rows); }
  }

  lemma SharedCites(text: Text, rows: seq<Evidence>, reuse: Reuse)
    ensures AllCite(rows, Shared(text, rows, reuse))
  {
    hide Rows, InTier, Ids;
    var asns := Rows(rows, "ip_asn");
    RowsWithin(rows, "ip_asn");
    if asns != [] { CitesWithin(asns, rows); }
  }

  lemma WebsiteCites(rows: seq<Evidence>)
    ensures AllCite(rows, Website(rows))
  {
    hide Rows, InTier, Ids;
    TierRowsWithin(rows, 3, "web_thin_footprint");
    TierRowsWithin(rows, 3, "web_employee_footprint");
    TierRowsWithin(rows, 3, "web_brand");
    var thin := Rows(InTier(rows, 3), "web_thin_footprint");
    var employees := Rows(InTier(rows, 3), "web_employee_footprint");
    var brand := Rows(InTier(rows, 3), "web_brand");
    if thin != [] { CitesWithin(thin, rows); }
    if employees != [] { CitesWithin(employees, rows); }
    if brand != [] { CitesWithin(brand[..1], rows); }
  }

  lemma ObservedCites(text: Text, rows: seq<Evidence>, reuse: Reuse)
    ensures AllCite(rows, Observed(text, rows, reuse))
  {
    hide Sanctions, Staging, Age, Network, Shared, Website, Cites;
    SanctionsCite(rows);
    StagingCites(text, rows);
    AgeCites(text, rows);
    NetworkCites(rows);
    SharedCites(text, rows, reuse);
    WebsiteCites(rows);
  }

  /** `Signal` demands that every signal reference evidence.  All of them do, unless there is no
      infrastructure or web evidence and nothing else fired. */
  lemma SignalsCiteEvidence(text: Text, rows: seq<Evidence>, reuse: Reuse)
    ensures AllCite(rows, FraudSignalsOf(text, rows, reuse))
            <==> !(Observed(text, rows, reuse) == [] && InTier(rows, 2) + InTier(rows, 3) == [])
  {
    hide Observed, InTier, Ids;
    ObservedCites(text, rows, reuse);
    var seen := InTier(rows, 2) + InTier(rows, 3);
    InTierWithin(rows, 2);
    InTierWithin(rows, 3);
    if seen != [] {
      CitesWithin(FirstOf(seen, 2), rows);
    } else {
      NoIds();
      if Observed(text, rows, reuse) == [] {
        assert !Cites(rows, FraudSignalsOf(text, rows, reuse)[0]);
      }
    }
  }

  lemma NoIds()
    ensures Ids([]) == {}
  {
  }

  // ----- The two tiers

  datatype Triage = PreClear | Review | Escalate

  const PRE_CLEAR_MAX := 30.0
  const ESCALATE_MIN := 70.0

  const CRITICAL := {"sanctions_hit", "sanctions_hit_fraud_flag", "ip_asn_reuse_high", "officer_sanctions_match",
                     "public_records_active_federal_exclusion"}
  const REVIEW_FLOOR := {"public_records_open_bankruptcy"}

  function NamesOf(signals: seq<Signal>): set<string> {
    set i | 0 <= i < |signals| :: signals[i].name
  }

  /** `_triage_tier`, on the set of names. */
  function TriageTier(overall: real, names: set<string>): Triage {
    if names * CRITICAL != {} then Escalate
    else if overall <= PRE_CLEAR_MAX then (if names * REVIEW_FLOOR != {} then Review else PreClear)
    else if overall >= ESCALATE_MIN then Escalate
    else Review
  }

  datatype TriageResult = TriageResult(tier: Triage, critical: seq<string>)

  /** `[s.name for s in signals if s.name in wanted]`. */
  function Listed(signals: seq<Signal>, wanted: set<string>): (names: seq<string>)
    ensures forall n :: n in names <==> n in NamesOf(signals) && n in wanted
  {
    if signals == [] then []
    else
      assert forall n :: n in NamesOf(signals) <==> n == signals[0].name || n in NamesOf(signals[1..]) by {
        NamesSplit(signals);
      }
      (if signals[0].name in wanted then [signals[0].name] else []) + Listed(signals[1..], wanted)
  }

  lemma NamesSplit(signals: seq<Signal>)
    requires signals != []
    ensures forall n :: n in NamesOf(signals) <==> n == signals[0].name || n in NamesOf(signals[1..])
  {
    forall n ensures n in NamesOf(signals) <==> n == signals[0].name || n in NamesOf(signals[1..]) {
      if n in NamesOf(signals) {
        var i :| 0 <= i < |signals| && signals[i].name == n;
        if i > 0 { assert signals[1..][i - 1].name == n; }
      }
      if n in NamesOf(signals[1..]) {
        var i :| 0 <= i < |signals[1..]| && signals[1..][i].name == n;
        assert signals[i + 1].name == n;
      }
    }
  }

  /** `derive_triage`, on the list of signals. */
  function DeriveTriage(overall: real, signals: seq<Signal>): TriageResult {
    var critical := Listed(signals, CRITICAL);
    if critical != [] then TriageResult(Escalate, critical)
    else if overall <= PRE_CLEAR_MAX then
      TriageResult(if Listed(signals, REVIEW_FLOOR) != [] then Review else PreClear, [])
    else if overall >= ESCALATE_MIN then TriageResult(Escalate, [])
    else TriageResult(Review, [])
  }

  datatype ScoringResult = ScoringResult(
    entity: real, infrastructure: real, representation: real, risk: real, overall: real, tier: Triage, signals: seq<Signal>)

  /** The row `ScoringStage` stores. */
  datatype Assessment = Assessment(overall: Option<real>, tier: Option<Triage>, signals: Option<seq<Signal>>)

  function Persist(r: ScoringResult): Assessment {
    Assessment(Some(r.overall), Some(r.tier), Some(r.signals))
  }

  /** `_derive_triage_from_assessment`: a score of 0.0 is falsy, so it reads as 50.0. */
  function ReportTriage(a: Assessment): TriageResult {
    DeriveTriage(if a.overall.None? || a.overall.value == 0.0 then 50.0 else a.overall.value, a.signals.UnwrapOr([]))
  }

  /** `ScoringEngine.score`, given what the other three catalogues say. */
  method Score(entity: seq<Signal>, infrastructure: seq<Signal>, representation: seq<Signal>,
               text: Text, rows: seq<Evidence>, reuse: Reuse) returns (result: ScoringResult)
    ensures result.signals == entity + infrastructure + representation + FraudSignalsOf(text, rows, reuse)
    ensures result.entity == EntityScoreOf(entity) && result.infrastructure == InfrastructureScoreOf(infrastructure)
    ensures result.representation == RepresentationScoreOf(representation)
    ensures result.risk == RiskScoreOf(FraudSignalsOf(text, rows, reuse))
    ensures result.overall == OverallScore(result.entity, result.infrastructure, result.representation, result.risk)
    ensures 2.5 <= result.overall <= 100.0
    ensures result.overall == (result.entity + result.infrastructure + result.representation + result.risk) / 4.0
    ensures result.tier == TriageTier(result.overall, NamesOf(result.signals))
    ensures ReportTriage(Persist(result)).tier == result.tier
  {
    hide FraudSignalsOf, DeriveTriage, TriageTier, LayerScoreOf, OverallScore, NamesOf;
    var e: real, i: real, p: real, k: real;
    if |entity| == 1 && entity[0].name == "no_registry_evidence" { e := 60.0; } else { e := LayerScore(entity); }
    if |infrastructure| == 1 && infrastructure[0].name == "infrastructure_data_unavailable" { i := 40.0; } else { i := LayerScore(infrastructure); }
    if |representation| == 1 && representation[0].name == "no_field_comparisons" {
      p := 35.0;
    } else if |representation| == 1 && representation[0].name == "all_fields_unverified" {
      p := 45.0;
    } else {
      p := LayerScore(representation);
    }
    var fraud := FraudSignals(text, rows, reuse);
    if |fraud| == 1 && fraud[0].name == "fraud_signals_unavailable" { k := 35.0; } else { k := LayerScore(fraud); }
    var overall := OverallScore(e, i, p, k);
    var signals := entity + infrastructure + representation + fraud;
    OverallIsAboveZero(entity, infrastructure, representation, text, rows, reuse);
    result := ScoringResult(e, i, p, k, overall, TriageTier(overall, NamesOf(signals)), signals);
    TiersAgreeExactly(overall, signals);
  }

  lemma OverallIsAboveZero(entity: seq<Signal>, infrastructure: seq<Signal>, representation: seq<Signal>,
                           text: Text, rows: seq<Evidence>, reuse: Reuse)
    ensures 2.5 <= OverallScore(EntityScoreOf(entity), InfrastructureScoreOf(infrastructure),
                                RepresentationScoreOf(representation), RiskScoreOf(FraudSignalsOf(text, rows, reuse))) <= 100.0
    ensures OverallScore(EntityScoreOf(entity), InfrastructureScoreOf(infrastructure),
                         RepresentationScoreOf(representation), RiskScoreOf(FraudSignalsOf(text, rows, reuse)))
            == (EntityScoreOf(entity) + InfrastructureScoreOf(infrastructure) + RepresentationScoreOf(representation)
                + RiskScoreOf(FraudSignalsOf(text, rows, reuse))) / 4.0
  {
    hide FraudSignalsOf, Weight;
    RiskAtLeastTen(text, rows, reuse);
  }

  /** What the tier says: escalate for a critical signal or a score of 70 and more, pre-clear up to 30
      without a critical signal and without an open bankruptcy, review in every other case. */
  lemma TierMeans(overall: real, names: set<string>)
    ensures var critical := "sanctions_hit" in names || "sanctions_hit_fraud_flag" in names || "ip_asn_reuse_high" in names
                            || "officer_sanctions_match" in names || "public_records_active_federal_exclusion" in names;
            && (TriageTier(overall, names) == Escalate <==> critical || overall >= 70.0)
            && (TriageTier(overall, names) == PreClear <==>
                  !critical && overall <= 30.0 && "public_records_open_bankruptcy" !in names)
            && (TriageTier(overall, names) == Review <==>
                  !critical && overall < 70.0 && (overall > 30.0 || "public_records_open_bankruptcy" in names))
  {
    assert names * REVIEW_FLOOR != {} <==> "public_records_open_bankruptcy" in names by {
      if "public_records_open_bankruptcy" in names {
        assert "public_records_open_bankruptcy" in names * REVIEW_FLOOR;
      }
    }
    CriticalMeans(names);
  }

  lemma CriticalMeans(names: set<string>)
    ensures names * CRITICAL != {} <==>
            ("sanctions_hit" in names || "sanctions_hit_fraud_flag" in names || "ip_asn_reuse_high" in names
             || "officer_sanctions_match" in names || "public_records_active_federal_exclusion" in names)
  {
    if n :| n in CRITICAL && n in names {
      assert n in names * CRITICAL;
    }
  }

  /** On the same score the set-based and the list-based rule are one rule. */
  lemma RulesAgree(overall: real, signals: seq<Signal>)
    ensures DeriveTriage(overall, signals).tier == TriageTier(overall, NamesOf(signals))
    ensures DeriveTriage(overall, signals).critical != [] <==> NamesOf(signals) * CRITICAL != {}
  {
    hide NamesOf;
    ListedNone(signals, CRITICAL);
    ListedNone(signals, REVIEW_FLOOR);
  }

  lemma ListedNone(signals: seq<Signal>, wanted: set<string>)
    ensures Listed(signals, wanted) == [] <==> NamesOf(signals) * wanted == {}
  {
    hide NamesOf;
    var names := Listed(signals, wanted);
    if names != [] {
      assert names[0] in names;
      assert names[0] in NamesOf(signals) * wanted;
    }
  }

  /** The persisted tier and the report's tier for a stored score: they agree unless the score is
      exactly zero and no signal overrides it. */
  lemma TiersAgreeExactly(overall: real, signals: seq<Signal>)
    ensures ReportTriage(Assessment(Some(overall), Some(TriageTier(overall, NamesOf(signals))), Some(signals))).tier
              == TriageTier(overall, NamesOf(signals))
            <==> overall != 0.0 || NamesOf(signals) * CRITICAL != {} || NamesOf(signals) * REVIEW_FLOOR != {}
  {
    hide NamesOf, DeriveTriage;
    RulesAgree(overall, signals);
    RulesAgree(50.0, signals);
  }

  /** A stored zero without signals: pre-clear in the row, review in the report. */
  lemma StoredZeroDiffers()
    ensures TriageTier(0.0, NamesOf([])) == PreClear
    ensures ReportTriage(Assessment(Some(0.0), Some(PreClear), Some([]))).tier == Review
  {
    assert NamesOf([]) == {};
  }

  /** Without any evidence the one fraud signal cites none. */
  lemma NoEvidenceNoCitation(text: Text, reuse: Reuse)
    ensures FraudSignalsOf(text, [], reuse) == [Signal("fraud_signals_unavailable", "risk", "elevated", 0.2, {})]
    ensures !AllCite([], FraudSignalsOf(text, [], reuse))
  {
    NoIds();
    assert Networks(text, []) == {};
    assert Observed(text, [], reuse) == [];
    assert !Cites([], FraudSignalsOf(text, [], reuse)[0]);
  }
}
