/** The shared CA: certificate, key and auto-renew flag are three rows of the config table that one
    transaction updates together. */
module CaStore {
  import opened Prelude
  import opened ConfigTable

  const CERT: string := "ca_cert"
  const KEY: string := "ca_key"
  const AUTO_RENEW: string := "ca_auto_renew"
  const RENEWABLE: string := "yes"
  const NOT_RENEWABLE: string := "no"

  function RenewText(autoRenew: bool): string { if autoRenew then RENEWABLE else NOT_RENEWABLE }

  /** The config map after a successful store. */
  function Stored(m: map<string, string>, cert: string, key: string, autoRenew: bool): map<string, string>
  {
    m[CERT := cert][KEY := key][AUTO_RENEW := RenewText(autoRenew)]
  }

  datatype Failure = StatementFailed | NoCertificate | NotAKeyPair | NotACa | CannotSign

  /** One record of the upsert: created when missing, updated when different, left alone otherwise. */
  method UpsertRecord(c: Config, key: string, value: string) returns (changed: bool, err: Option<Error>)
    requires c.Valid()
    modifies c
    ensures c.Valid() && err == None
    ensures c.Map() == old(c.Map())[key := value]
    ensures changed <==> c.Map() != old(c.Map())
  {
    changed, err := false, None;
    var item := c.GetConfigItem(key);
    if item.Err? {
      err := c.CreateConfigItem(key, value);
      changed := true;
    } else if item.value.value != value {
      err := c.UpdateConfigItem(key, value);
      assert c.Map()[key] != old(c.Map())[key];
      changed := true;
    } else {
      assert c.Map() == c.Map()[key := value];
    }
  }

  // Where the transaction can fail.
  const BEGIN: nat := 0
  const CERT_STATEMENT: nat := 1
  const KEY_STATEMENT: nat := 2
  const FLAG_STATEMENT: nat := 3
  const COMMIT: nat := 4

  /** The transaction; it fails at step `failing`, beyond `COMMIT` not at all. A failed one is rolled back,
      but the flag says "updated" all the same when a statement failed, or when the commit failed and a
      record would have changed. */
  method StoreCa(c: Config, certPem: string, keyPem: string, autoRenew: bool, failing: nat)
    returns (updated: bool, err: Option<Failure>)
    requires c.Valid()
    modifies c
    ensures c.Valid()
    ensures err == None <==> failing > COMMIT
    ensures err == None ==> c.Map() == Stored(old(c.Map()), certPem, keyPem, autoRenew)
    ensures err.Some? ==> c.rows == old(c.rows) && c.nextId == old(c.nextId)
    ensures err.Some? ==> err == Some(StatementFailed)
    ensures updated <==>
            || BEGIN < failing < COMMIT
            || (failing >= COMMIT && Stored(old(c.Map()), certPem, keyPem, autoRenew) != old(c.Map()))
  {
    var rowsBefore, nextIdBefore := c.rows, c.nextId;
    StoredChangesSomething(c.Map(), certPem, keyPem, autoRenew);
    updated, err := false, Some(StatementFailed);
    if failing != BEGIN {
      updated := failing == CERT_STATEMENT;
      if failing > CERT_STATEMENT {
        var certChanged, _ := UpsertRecord(c, CERT, certPem);
        updated := certChanged || failing == KEY_STATEMENT;
        if failing > KEY_STATEMENT {
          var keyChanged, _ := UpsertRecord(c, KEY, keyPem);
          updated := updated || keyChanged || failing == FLAG_STATEMENT;
          if failing > FLAG_STATEMENT {
            var flagChanged, _ := UpsertRecord(c, AUTO_RENEW, RenewText(autoRenew));
            updated := updated || flagChanged;
            if failing > COMMIT {
              err := None;
            }
          }
        }
      }
    }
    if err.Some? {
      c.rows, c.nextId := rowsBefore, nextIdBefore;
    }
  }

  /** The three keys differ, so no record restores what an earlier one changed. */
  lemma StoredChangesSomething(m: map<string, string>, cert: string, key: string, autoRenew: bool)
    ensures var withCert := m[CERT := cert];
            var withKey := withCert[KEY := key];
            Stored(m, cert, key, autoRenew) != m <==>
              withCert != m || withKey != withCert || Stored(m, cert, key, autoRenew) != withKey
  {
    var withCert := m[CERT := cert];
    var withKey := withCert[KEY := key];
    var all := Stored(m, cert, key, autoRenew);
    assert all[CERT] == cert && all[KEY] == key;
    if all == m {
      assert withCert == m;
      assert withKey == m;
    }
  }

  /** A generated CA is stored as renewable; a failed generation stores nothing. */
  method GenerateNewCa(c: Config, issued: Option<(string, string)>, failing: nat)
    returns (updated: bool, err: Option<Failure>)
    requires c.Valid()
    modifies c
    ensures c.Valid()
    ensures err == None <==> issued.Some? && failing > COMMIT
    ensures err == None ==> c.Map() == Stored(old(c.Map()), issued.value.0, issued.value.1, true)
    ensures issued == None ==> !updated && err == Some(NoCertificate)
    ensures issued.Some? && failing <= COMMIT ==> err == Some(StatementFailed)
    ensures issued.Some? ==>
              (updated <==>
               || BEGIN < failing < COMMIT
               || (failing >= COMMIT && Stored(old(c.Map()), issued.value.0, issued.value.1, true) != old(c.Map())))
    ensures err.Some? ==> c.rows == old(c.rows)
  {
    if issued == None {
      return false, Some(NoCertificate);
    }
    updated, err := StoreCa(c, issued.value.0, issued.value.1, true, failing);
  }

  datatype CertificateFacts = CertificateFacts(isCa: bool, signsCertificates: bool)

  /** A user-provided CA is stored, as not renewable, when it parses as a key pair and every
      certificate of its chain is a CA that may sign. */
  method SetNewCa(c: Config, certPem: string, keyPem: string, chain: Option<seq<CertificateFacts>>, failing: nat)
    returns (updated: bool, err: Option<Failure>)
    requires c.Valid()
    modifies c
    ensures c.Valid()
    ensures err == None <==>
              && chain.Some? && failing > COMMIT
              && forall x | x in chain.value :: x.isCa && x.signsCertificates
    ensures chain == None <==> err == Some(NotAKeyPair)
    ensures chain.Some? ==>
              forall i | 0 <= i < |chain.value| && !(chain.value[i].isCa && chain.value[i].signsCertificates)
                         && (forall j | 0 <= j < i :: chain.value[j].isCa && chain.value[j].signsCertificates) ::
                err == Some(if chain.value[i].isCa then CannotSign else NotACa)
    ensures err == None ==> c.Map() == Stored(old(c.Map()), certPem, keyPem, false)
    ensures updated <==>
            && chain.Some? && (forall x | x in chain.value :: x.isCa && x.signsCertificates)
            && (BEGIN < failing < COMMIT
                || (failing >= COMMIT && Stored(old(c.Map()), certPem, keyPem, false) != old(c.Map())))
    ensures err.Some? ==> c.rows == old(c.rows)
  {
    if chain == None {
      return false, Some(NotAKeyPair);
    }
    for i := 0 to |chain.value|
      invariant forall x | x in chain.value[..i] :: x.isCa && x.signsCertificates
      invariant c.Valid() && c.rows == old(c.rows) && c.nextId == old(c.nextId)
    {
      var x := chain.value[i];
      assert x in chain.value;
      if !x.isCa {
        return false, Some(NotACa);
      }
      if !x.signsCertificates {
        return false, Some(CannotSign);
      }
    }
    assert chain.value[..|chain.value|] == chain.value;
    updated, err := StoreCa(c, certPem, keyPem, false, failing);
  }

  /** Renewable unless the flag says "no"; an installation without the flag is renewable. */
  predicate Renewable(m: map<string, string>)
  {
    AUTO_RENEW in m ==> m[AUTO_RENEW] != NOT_RENEWABLE
  }

  method IsCaRenewable(c: Config) returns (renewable: bool, err: Option<Error>)
    requires c.Valid()
    ensures err == None && (renewable <==> Renewable(c.Map()))
    ensures AUTO_RENEW !in c.Map() ==> renewable
    ensures AUTO_RENEW in c.Map() ==> (renewable <==> c.Map()[AUTO_RENEW] != "no")
  {
    renewable, err := true, None;
    var flag := c.GetConfigItem(AUTO_RENEW);
    match flag
    case Err(e) =>
      if e != NotFound {
        err := Some(e);
      }
    case Ok(row) =>
      if row.value == NOT_RENEWABLE {
        renewable := false;
      }
  }

  // ---- Runs of stores ----

  /** One store attempt, generated (renewable) or user-provided, that succeeded or was rolled back. */
  datatype Call = Call(cert: string, key: string, autoRenew: bool, succeeds: bool)

  function CallEffect(m: map<string, string>, call: Call): map<string, string>
  {
    if call.succeeds then Stored(m, call.cert, call.key, call.autoRenew) else m
  }

  function StoreRun(m: map<string, string>, calls: seq<Call>): map<string, string>
  {
    if calls == [] then m
    else CallEffect(StoreRun(m, calls[..|calls| - 1]), calls[|calls| - 1])
  }

  function LastSuccess(calls: seq<Call>): Option<Call>
  {
    if calls == [] then None
    else if calls[|calls| - 1].succeeds then Some(calls[|calls| - 1])
    else LastSuccess(calls[..|calls| - 1])
  }

  predicate IsCaKey(k: string) { k == CERT || k == KEY || k == AUTO_RENEW }

  /** After any run the three records all come from the last successful call, and nothing else in the
      table has changed; the renewability that is reported is that of the same call. */
  lemma {:induction false} CaComesFromLastSuccess(m: map<string, string>, calls: seq<Call>)
    ensures var end, last := StoreRun(m, calls), LastSuccess(calls);
            && (last == None ==> end == m)
            && (last.Some? ==>
                  && CERT in end && end[CERT] == last.value.cert
                  && KEY in end && end[KEY] == last.value.key
                  && AUTO_RENEW in end && end[AUTO_RENEW] == (if last.value.autoRenew then "yes" else "no")
                  && (Renewable(end) <==> last.value.autoRenew))
            && (forall k | !IsCaKey(k) :: (k in end <==> k in m) && (k in m ==> end[k] == m[k]))
  {
    if calls != [] {
      CaComesFromLastSuccess(m, calls[..|calls| - 1]);
    }
  }

  /** "Updated" means that one of the three records changed, so repeating a store reports nothing. */
  lemma UpdatedIffRecordChanged(m: map<string, string>, cert: string, key: string, autoRenew: bool)
    ensures Stored(m, cert, key, autoRenew) != m <==>
            !(CERT in m && m[CERT] == cert && KEY in m && m[KEY] == key
              && AUTO_RENEW in m && m[AUTO_RENEW] == RenewText(autoRenew))
    ensures var once := Stored(m, cert, key, autoRenew); Stored(once, cert, key, autoRenew) == once
  {
    var once := Stored(m, cert, key, autoRenew);
    assert once == m ==> once[CERT] == cert && once[KEY] == key;
    if CERT in m && m[CERT] == cert && KEY in m && m[KEY] == key
       && AUTO_RENEW in m && m[AUTO_RENEW] == RenewText(autoRenew) {
      assert once == m;
    }
  }
}
