/** Cluster-wide BGP settings: what the setup request writes into the config table, and what every
    member reads back from it. */
module ClusterBgp {
  import opened Prelude
  import opened AsnRange
  import opened BgpConfig
  import ConfigTable

  const CLUSTER: string := "microovn-bgp-cluster"
  const INTERFACE: string := "microovn-bgp-arg-interface"
  const BRIDGE: string := "microovn-bgp-arg-br"
  const ASN: string := "microovn-bgp-arg-asn"
  const ASN_RANGE: string := "microovn-bgp-arg-asn_range"
  const IP4_RANGE: string := "microovn-bgp-arg-connection-ip4-range"

  datatype Request = Request(config: Config, ip4Range: string)

  datatype Error = NoConnection | BothConnections | BadRangeText(error: AsnRange.Error) | BadConfig(invalid: Invalid)

  function ValidateRequest(r: Request): Option<Error>
  {
    if r.config.externalConnection == "" && r.config.bridge == "" then Some(NoConnection)
    else if r.config.externalConnection != "" && r.config.bridge != "" then Some(BothConnections)
    else None
  }

  function Put(m: map<string, string>, key: string, value: string, wanted: bool): map<string, string>
  {
    if wanted then m[key := value] else m
  }

  /** The config map after an accepted request; keys of earlier requests are never removed. */
  function StoreInto(m: map<string, string>, r: Request): map<string, string>
  {
    var c := r.config;
    var m1 := m[CLUSTER := "true"];
    var m2 := if c.externalConnection != "" then m1[INTERFACE := c.externalConnection] else m1[BRIDGE := c.bridge];
    var m3 := Put(m2, ASN, c.asn, c.asn != "");
    var m4 := Put(m3, ASN_RANGE, FormatAsnRange(c.asnRange), c.asnRange != NO_RANGE);
    Put(m4, IP4_RANGE, r.ip4Range, r.ip4Range != "")
  }

  method StoreClusterConfig(table: ConfigTable.Config, r: Request) returns (err: Option<Error>)
    requires table.Valid()
    modifies table
    ensures table.Valid() && err == ValidateRequest(r)
    ensures table.Map() == if err == None then StoreInto(old(table.Map()), r) else old(table.Map())
  {
    err := ValidateRequest(r);
    if err.Some? {
      return;
    }
    var _ := table.SetConfig(CLUSTER, "true");
    if r.config.externalConnection != "" {
      var _ := table.SetConfig(INTERFACE, r.config.externalConnection);
    } else {
      var _ := table.SetConfig(BRIDGE, r.config.bridge);
    }
    if r.config.asn != "" {
      var _ := table.SetConfig(ASN, r.config.asn);
    }
    if r.config.asnRange.min != 0 || r.config.asnRange.max != 0 {
      var _ := table.SetConfig(ASN_RANGE, FormatAsnRange(r.config.asnRange));
    }
    if r.ip4Range != "" {
      var _ := table.SetConfig(IP4_RANGE, r.ip4Range);
    }
  }

  function ValueOr(m: map<string, string>, key: string): string { if key in m then m[key] else "" }

  /** A stored range text is parsed and, with it, the whole configuration is validated at once. */
  function LoadFrom(m: map<string, string>): Result<Config, Error>
  {
    var plain := Config(ValueOr(m, INTERFACE), ValueOr(m, BRIDGE), "", ValueOr(m, ASN), NO_RANGE, false);
    if ASN_RANGE !in m then Ok(plain)
    else
      match ParseAsnRange(m[ASN_RANGE])
      case Err(e) => Err(BadRangeText(e))
      case Ok(range) =>
        var config := plain.(asnRange := range);
        match Validate(config)
        case Some(invalid) => Err(BadConfig(invalid))
        case None => Ok(config)
  }

  method LoadClusterConfig(table: ConfigTable.Config) returns (r: Result<Config, Error>)
    requires table.Valid()
    ensures r == LoadFrom(table.Map())
  {
    var config := Config("", "", "", "", NO_RANGE, false);
    var item := table.GetConfig(INTERFACE);
    if item.Ok? && item.value.Some? {
      config := config.(externalConnection := item.value.value);
    }
    item := table.GetConfig(BRIDGE);
    if item.Ok? && item.value.Some? {
      config := config.(bridge := item.value.value);
    }
    item := table.GetConfig(ASN);
    if item.Ok? && item.value.Some? {
      config := config.(asn := item.value.value);
    }
    item := table.GetConfig(ASN_RANGE);
    if item.Ok? && item.value.Some? {
      var range := ParseAsnRange(item.value.value);
      if range.Err? {
        return Err(BadRangeText(range.error));
      }
      config := config.(asnRange := range.value);
      var invalid := Validate(config);
      if invalid.Some? {
        return Err(BadConfig(invalid.value));
      }
    }
    r := Ok(config);
  }

  /** Reading fails on a stored range alone: one that does not parse, or one with which the settings are
      not valid. Without a range the stored settings are taken as they are. */
  lemma LoadFails(m: map<string, string>)
    ensures LoadFrom(m).Err? <==>
            ASN_RANGE in m
            && (ParseAsnRange(m[ASN_RANGE]).Err?
                || Validate(Config(ValueOr(m, INTERFACE), ValueOr(m, BRIDGE), "", ValueOr(m, ASN),
                                   ParseAsnRange(m[ASN_RANGE]).value, false)).Some?)
    ensures LoadFrom(m).Ok? ==>
              var c := LoadFrom(m).value;
              && c.externalConnection == ValueOr(m, INTERFACE) && c.bridge == ValueOr(m, BRIDGE)
              && c.asn == ValueOr(m, ASN) && c.vrf == "" && !c.manualBgpd
              && (if ASN_RANGE in m then ParseAsnRange(m[ASN_RANGE]) == Ok(c.asnRange) else c.asnRange == NO_RANGE)
  {
  }

  /** What a member should read after an accepted request: the VRF and the manual flag are not part
      of the cluster settings. */
  function Expected(r: Request): Config
  {
    r.config.(vrf := "", manualBgpd := false)
  }

  /** No earlier request left a key behind that this request does not overwrite. */
  predicate NothingLeftOver(m: map<string, string>, r: Request)
  {
    && (r.config.externalConnection == "" ==> ValueOr(m, INTERFACE) == "")
    && (r.config.bridge == "" ==> ValueOr(m, BRIDGE) == "")
    && (r.config.asn == "" ==> ValueOr(m, ASN) == "")
    && (r.config.asnRange == NO_RANGE && ASN_RANGE in m ==> ParseAsnRange(m[ASN_RANGE]) == Ok(NO_RANGE))
  }

  /** A request is accepted exactly when it names either interfaces or bridges. */
  lemma AcceptedIff(r: Request)
    ensures ValidateRequest(r) == None <==> (r.config.externalConnection == "") != (r.config.bridge == "")
    ensures ValidateRequest(r) == Some(NoConnection) <==> r.config.externalConnection == "" && r.config.bridge == ""
  {
  }

  /** What each key of the config table holds after an accepted request. */
  lemma StoredValues(m: map<string, string>, r: Request)
    requires ValidateRequest(r) == None
    ensures var end, c := StoreInto(m, r), r.config;
            && CLUSTER in end && end[CLUSTER] == "true"
            && ValueOr(end, IP4_RANGE) == (if r.ip4Range != "" then r.ip4Range else ValueOr(m, IP4_RANGE))
            && (forall k | k != CLUSTER && k != INTERFACE && k != BRIDGE && k != ASN && k != ASN_RANGE && k != IP4_RANGE ::
                  (k in end <==> k in m) && (k in m ==> end[k] == m[k]))
            && ValueOr(end, INTERFACE) == (if c.externalConnection != "" then c.externalConnection else ValueOr(m, INTERFACE))
            && ValueOr(end, BRIDGE) == (if c.bridge != "" then c.bridge else ValueOr(m, BRIDGE))
            && ValueOr(end, ASN) == (if c.asn != "" then c.asn else ValueOr(m, ASN))
            && (ASN_RANGE in end <==> c.asnRange != NO_RANGE || ASN_RANGE in m)
            && (ASN_RANGE in end ==>
                  end[ASN_RANGE] == if c.asnRange != NO_RANGE then FormatAsnRange(c.asnRange) else m[ASN_RANGE])
  {
  }

  /** Every member reads back exactly the settings of an accepted request, if and only if earlier
      requests left nothing over, and the settings are valid whenever a range is stored: an interface
      request after a bridge request, for one, keeps the bridge, a request without a range keeps the
      old range, and the handler itself never validates a range. */
  lemma MembersReadRequestIff(m: map<string, string>, r: Request)
    requires ValidateRequest(r) == None
    ensures LoadFrom(StoreInto(m, r)) == Ok(Expected(r)) <==>
            NothingLeftOver(m, r) && (ASN_RANGE in StoreInto(m, r) ==> Validate(Expected(r)) == None)
  {
    StoredValues(m, r);
    if r.config.asnRange != NO_RANGE && Validate(Expected(r)) == None {
      ValidRangeFits(Expected(r));
      AsnRangeRoundTrip(r.config.asnRange);
    }
  }

  lemma ValidRangeFits(c: Config)
    requires c.asnRange != NO_RANGE && Validate(c) == None
    ensures Fits32(c.asnRange)
  {
    assert InvalidNumber(c) == None;
    assert ValidateAsnRange(c.asnRange) == None;
  }

  /** "--interface eth0 --asn_range 5-3" is accepted and stored, and then no member can read it. */
  lemma BackwardRangeIsAccepted()
    ensures var r := Request(Config("eth0", "", "", "", Range(5, 3), false), "");
            ValidateRequest(r) == None && NothingLeftOver(map[], r) && LoadFrom(StoreInto(map[], r)).Err?
  {
    var r := Request(Config("eth0", "", "", "", Range(5, 3), false), "");
    StoredValues(map[], r);
    AsnRangeRoundTrip(Range(5, 3));
    assert InvalidNumber(Expected(r)).Some?;
  }
}
