/** What one member does with a new CA: which certificates it re-issues, and what a single issue leaves in
    the two files of a service. */
module CaReissue {
  import opened Prelude

  /** Services enabled on a member. */
  datatype Enabled = Enabled(central: bool, chassis: bool, switch: bool)

  /** The certificates that are re-issued, in order. */
  function OvnServices(e: Enabled): seq<string>
  {
    (if e.central then ["ovnnb", "ovnsb", "ovn-northd"] else [])
    + (if e.switch then ["ovn-controller"] else []) + ["client"]
  }

  /** The certificates that joining central, joining the chassis and joining the cluster created. */
  function CertificatesInUse(e: Enabled): set<string>
  {
    (if e.central then {"ovnnb", "ovnsb", "ovn-northd"} else {})
    + (if e.chassis then {"ovn-controller"} else {}) + {"client"}
  }

  /** The controller certificate belongs to the chassis service but is re-issued for the switch
      service: a rollout covers every certificate in use exactly when no chassis runs without it. */
  lemma ReissueCoversInUseIff(e: Enabled)
    ensures (forall s | s in CertificatesInUse(e) :: s in OvnServices(e)) <==> (e.chassis ==> e.switch)
  {
    if e.chassis {
      assert "ovn-controller" in CertificatesInUse(e);
    }
    assert e.switch ==> OvnServices(e)[|OvnServices(e)| - 2] == "ovn-controller";
    assert e.central ==> OvnServices(e)[0] == "ovnnb" && OvnServices(e)[1] == "ovnsb" && OvnServices(e)[2] == "ovn-northd";
    assert OvnServices(e)[|OvnServices(e)| - 1] == "client";
  }

  /** The three certificates of central, the controller's with the switch service, and always the client's,
      each once. */
  lemma ReissuedServices(e: Enabled)
    ensures forall s :: s in OvnServices(e) <==>
              || (e.central && (s == "ovnnb" || s == "ovnsb" || s == "ovn-northd"))
              || (e.switch && s == "ovn-controller") || s == "client"
    ensures |OvnServices(e)| == (if e.central then 3 else 0) + (if e.switch then 1 else 0) + 1
  {
    ReissueCoversInUseIff(e);
    ReissueCoversInUseIff(e.(chassis := e.switch));
    assert forall s | s in OvnServices(e) :: s in CertificatesInUse(e.(chassis := e.switch));
    assert forall s | s in CertificatesInUse(e.(chassis := e.switch)) :: s in OvnServices(e.(chassis := e.switch));
  }

  method EnabledOvnServices(e: Enabled) returns (services: seq<string>)
    ensures services == OvnServices(e)
    ensures (forall s | s in CertificatesInUse(e) :: s in services) <==> (e.chassis ==> e.switch)
  {
    services := [];
    if e.central {
      services := services + ["ovnnb", "ovnsb", "ovn-northd"];
    }
    if e.switch {
      services := services + ["ovn-controller"];
    }
    services := services + ["client"];
    ReissueCoversInUseIff(e);
  }

  /** A certificate names the CA that issued it and the key that belongs to it. */
  datatype Issue = Issue(ca: int, key: int)

  /** The certificate file and the key file of a service; None for an empty one. */
  datatype Files = Files(cert: Option<Issue>, key: Option<int>)

  predicate Usable(f: Files)
  {
    f.cert.Some? && f.key == Some(f.cert.value.key)
  }

  // The steps of one issue.
  const CREATE_CERT: nat := 0
  const CHMOD_CERT: nat := 1
  const CREATE_KEY: nat := 2
  const CHMOD_KEY: nat := 3
  const GET_CA: nat := 4
  const ISSUE: nat := 5
  const WRITE_CERT: nat := 6
  const WRITE_KEY: nat := 7
  const STEPS: nat := 8

  /** The key that an issue draws, and the step at which it fails; none from `STEPS` on. */
  datatype Attempt = Attempt(key: int, failing: nat)

  function Before(content: map<string, Files>, service: string): Files
  {
    if service in content then content[service] else Files(None, None)
  }

  /** The two files after an issue. Creating a file empties it, long before the new content is known. */
  function After(f: Files, ca: int, a: Attempt): Files
  {
    Files(
      if a.failing == CREATE_CERT then f.cert else if a.failing <= WRITE_CERT then None else Some(Issue(ca, a.key)),
      if a.failing <= CREATE_KEY then f.key else if a.failing <= WRITE_KEY then None else Some(a.key))
  }

  class Pki {
    var content: map<string, Files>

    constructor ()
      ensures content == map[]
    {
      content := map[];
    }

    /** A successful issue leaves a usable pair that the current CA has signed. A failed one leaves a
        usable pair only when it has not even emptied the old certificate. */
    method GenerateCertificate(service: string, ca: int, a: Attempt) returns (ok: bool)
      modifies this
      ensures ok <==> a.failing >= STEPS
      ensures content == old(content)[service := After(Before(old(content), service), ca, a)]
      ensures Usable(content[service]) <==>
              ok || (a.failing == CREATE_CERT && Usable(Before(old(content), service)))
      ensures ok ==> content[service].cert == Some(Issue(ca, a.key))
      ensures a.failing == CREATE_CERT ==> content[service] == Before(old(content), service)
      ensures CHMOD_CERT <= a.failing <= CREATE_KEY ==> content[service] == Files(None, Before(old(content), service).key)
      ensures CHMOD_KEY <= a.failing <= WRITE_CERT ==> content[service] == Files(None, None)
      ensures a.failing == WRITE_KEY ==> content[service] == Files(Some(Issue(ca, a.key)), None)
    {
      var files := Before(content, service);
      var failed := a.failing == CREATE_CERT;
      if !failed {
        files := files.(cert := None);
        failed := a.failing == CHMOD_CERT || a.failing == CREATE_KEY;
      }
      if !failed {
        files := files.(key := None);
        failed := a.failing == CHMOD_KEY || a.failing == GET_CA || a.failing == ISSUE || a.failing == WRITE_CERT;
      }
      if !failed {
        files := files.(cert := Some(Issue(ca, a.key)));
        failed := a.failing == WRITE_KEY;
      }
      if !failed {
        files := files.(key := Some(a.key));
      }
      content := content[service := files];
      ok := !failed;
    }

    /** Every service is tried, whatever happened to the ones before. */
    method ReissueAllCertificates(e: Enabled, ca: int, attempts: map<string, Attempt>)
      returns (success: seq<string>, failed: seq<string>)
      requires forall s | s in OvnServices(e) :: s in attempts
      modifies this
      ensures success == OutcomeList(OvnServices(e), attempts, true)
      ensures failed == OutcomeList(OvnServices(e), attempts, false)
      ensures content == AfterAll(old(content), OvnServices(e), ca, attempts)
    {
      var services := EnabledOvnServices(e);
      success, failed := ReissueEach(services, ca, attempts);
    }

    method ReissueEach(services: seq<string>, ca: int, attempts: map<string, Attempt>)
      returns (success: seq<string>, failed: seq<string>)
      requires forall s | s in services :: s in attempts
      modifies this
      ensures success == OutcomeList(services, attempts, true)
      ensures failed == OutcomeList(services, attempts, false)
      ensures content == AfterAll(old(content), services, ca, attempts)
    {
      success, failed := [], [];
      for i := 0 to |services|
        invariant success == OutcomeList(services[..i], attempts, true)
        invariant failed == OutcomeList(services[..i], attempts, false)
        invariant content == AfterAll(old(content), services[..i], ca, attempts)
      {
        assert services[..i + 1][..i] == services[..i];
        var ok := GenerateCertificate(services[i], ca, attempts[services[i]]);
        if ok {
          success := success + [services[i]];
        } else {
          failed := failed + [services[i]];
        }
      }
      assert services[..|services|] == services;
    }
  }

  function OutcomeList(services: seq<string>, attempts: map<string, Attempt>, issued: bool): seq<string>
    requires forall s | s in services :: s in attempts
  {
    if services == [] then []
    else
      var last := |services| - 1;
      OutcomeList(services[..last], attempts, issued)
      + (if (attempts[services[last]].failing >= STEPS) == issued then [services[last]] else [])
  }

  function AfterAll(content: map<string, Files>, services: seq<string>, ca: int, attempts: map<string, Attempt>)
    : map<string, Files>
    requires forall s | s in services :: s in attempts
  {
    if services == [] then content
    else
      var last := |services| - 1;
      var before := AfterAll(content, services[..last], ca, attempts);
      before[services[last] := After(Before(before, services[last]), ca, attempts[services[last]])]
  }

  /** Every service is reported, as what it is; one that is reported as issued has a usable pair of the
      current CA. */
  lemma {:induction false} ReissuedOrReported(content: map<string, Files>, services: seq<string>, ca: int,
                                              attempts: map<string, Attempt>, s: string)
    requires s in services && forall x | x in services :: x in attempts
    ensures s in OutcomeList(services, attempts, true) <==> attempts[s].failing >= STEPS
    ensures s in OutcomeList(services, attempts, false) <==> attempts[s].failing < STEPS
    ensures attempts[s].failing >= STEPS ==>
              var end := AfterAll(content, services, ca, attempts);
              s in end && Usable(end[s]) && end[s].cert.value.ca == ca
  {
    var last := |services| - 1;
    assert services == services[..last] + [services[last]];
    if s in services[..last] {
      ReissuedOrReported(content, services[..last], ca, attempts, s);
    } else {
      NotListed(services[..last], attempts, s);
    }
  }

  /** Every service is in one of the two lists, as often as it was tried. */
  lemma {:induction false} AllReported(services: seq<string>, attempts: map<string, Attempt>)
    requires AllAttempted(services, attempts)
    ensures multiset(OutcomeList(services, attempts, true)) + multiset(OutcomeList(services, attempts, false)) ==
            multiset(services)
  {
    if services != [] {
      var before, s := services[..|services| - 1], services[|services| - 1];
      assert services == before + [s] && s in services;
      AllReported(before, attempts);
      var ok := attempts[s].failing >= STEPS;
      OneMoreReported(OutcomeList(before, attempts, true), OutcomeList(before, attempts, false), before, s, ok);
      OutcomeStep(before, s, attempts, true);
      OutcomeStep(before, s, attempts, false);
    }
  }

  predicate AllAttempted(services: seq<string>, attempts: map<string, Attempt>)
  {
    forall s | s in services :: s in attempts
  }

  lemma OutcomeStep(before: seq<string>, s: string, attempts: map<string, Attempt>, issued: bool)
    requires AllAttempted(before, attempts) && s in attempts
    ensures AllAttempted(before + [s], attempts)
    ensures OutcomeList(before + [s], attempts, issued) ==
            OutcomeList(before, attempts, issued) + (if (attempts[s].failing >= STEPS) == issued then [s] else [])
  {
    assert (before + [s])[..|before|] == before;
  }

  lemma OneMoreReported(good: seq<string>, bad: seq<string>, services: seq<string>, s: string, ok: bool)
    requires multiset(good) + multiset(bad) == multiset(services)
    ensures multiset(good + (if ok then [s] else [])) + multiset(bad + (if ok then [] else [s])) ==
            multiset(services + [s])
  {
    assert good + [] == good && bad + [] == bad;
  }

  /** The files of every other service stay as they are. */
  lemma {:induction false} OthersStay(content: map<string, Files>, services: seq<string>, ca: int,
                                      attempts: map<string, Attempt>, s: string)
    requires (forall x | x in services :: x in attempts) && s !in services
    ensures var end := AfterAll(content, services, ca, attempts);
            (s in end <==> s in content) && (s in content ==> end[s] == content[s])
  {
    if services != [] {
      OthersStay(content, services[..|services| - 1], ca, attempts, s);
    }
  }

  lemma {:induction false} NotListed(services: seq<string>, attempts: map<string, Attempt>, s: string)
    requires s !in services && forall x | x in services :: x in attempts
    ensures s !in OutcomeList(services, attempts, true) && s !in OutcomeList(services, attempts, false)
  {
    if services != [] {
      NotListed(services[..|services| - 1], attempts, s);
    }
  }
}
