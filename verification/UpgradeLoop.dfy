/** The upgrade loop of one member: what each iteration decides from the answers it gets, and how
    long it sleeps between two of them. */
module UpgradeLoop {
  import opened Prelude
  import opened Members
  import opened UpgradeLeader

  const BACK_OFF_INITIAL: nat := 100
  const BACK_OFF_MAX: nat := 2000
  const BACK_OFF_MULTIPLIER: nat := 2

  /** The answers one iteration would get: the running and the packaged schema version, the leader
      check, the poll of the other members, and the conversion; None is an error. */
  datatype Answers = Answers(
    status: Option<(int, int)>, leader: Option<LeaderCheck>, ready: Option<bool>, converted: bool)

  datatype Outcome =
    | Refused            // not one of the two clustered databases
    | LookupFailed       // the local services could not be read
    | NotCentral         // nothing to do on this member
    | UpToDate
    | Converted(ok: bool)
    | Crashed
    | StillWaiting       // every answer so far led to a retry

  function Min(a: nat, b: nat): nat { if a <= b then a else b }

  function Pow2(k: nat): nat { if k == 0 then 1 else 2 * Pow2(k - 1) }

  /** The sleep after k earlier ones. */
  function Delay(k: nat): nat { Min(BACK_OFF_MAX, BACK_OFF_INITIAL * Pow2(k)) }

  /** The first sleep is 100 ms, and every sleep is twice the one before, but never above two seconds. */
  lemma DelayDoubles(k: nat)
    ensures Delay(0) == 100
    ensures Delay(k + 1) == if Delay(k) <= 1000 then 2 * Delay(k) else 2000
    ensures k >= 5 ==> Delay(k) == 2000
  {
    if k >= 5 {
      PowerGrows(k);
    }
  }

  lemma {:induction false} PowerGrows(k: nat)
    requires k >= 5
    ensures Pow2(k) >= 32
  {
    if k == 5 {
      assert Pow2(2) == 4 && Pow2(4) == 16;
    } else {
      PowerGrows(k - 1);
    }
  }

  /** The two versions are known, and they differ. */
  predicate Behind(a: Answers)
  {
    a.status.Some? && a.status.value.0 != a.status.value.1
  }

  /** The loop sleeps Delay(0), Delay(1), ... in between; every iteration before the last one has seen an
      error, or that this member does not lead, or that some member is not ready. The last one ends the
      loop: up to date exactly on equal versions, crashed exactly when no central member was found at
      different versions, and with a conversion exactly when the versions differ, this member leads and
      all the others are ready. */
  method UpgradeCentralDb(isCentralDb: bool, centralActive: Option<bool>, answers: seq<Answers>)
    returns (outcome: Outcome, waits: seq<nat>)
    ensures outcome == Refused <==> !isCentralDb
    ensures outcome == LookupFailed <==> isCentralDb && centralActive == None
    ensures outcome == NotCentral <==> isCentralDb && centralActive == Some(false)
    ensures !isCentralDb || centralActive != Some(true) ==> waits == []
    ensures |waits| <= |answers| && forall k | 0 <= k < |waits| :: waits[k] == Delay(k)
    ensures forall k | 0 <= k < |waits| ::
              || answers[k].status == None
              || (Behind(answers[k])
                  && (answers[k].leader == None || answers[k].leader == Some(Follower)
                      || (answers[k].leader == Some(Leader) && answers[k].ready != Some(true))))
    ensures isCentralDb && centralActive == Some(true) && |waits| < |answers| ==>
              var a := answers[|waits|];
              && (outcome == UpToDate <==> a.status.Some? && !Behind(a))
              && (outcome == Crashed <==> Behind(a) && a.leader == Some(Crash))
              && (forall ok :: outcome == Converted(ok) <==>
                    Behind(a) && a.leader == Some(Leader) && a.ready == Some(true) && a.converted == ok)
              && outcome != StillWaiting
    ensures isCentralDb && centralActive == Some(true) && |waits| == |answers| ==> outcome == StillWaiting
  {
    waits := [];
    if !isCentralDb {
      return Refused, waits;
    }
    if centralActive == None {
      return LookupFailed, waits;
    }
    if !centralActive.value {
      return NotCentral, waits;
    }
    var backOffMs := BACK_OFF_INITIAL;
    for i := 0 to |answers|
      invariant |waits| == i
      invariant forall k | 0 <= k < i :: waits[k] == Delay(k)
      invariant forall k | 0 <= k < i ::
                  || answers[k].status == None
                  || (Behind(answers[k])
                      && (answers[k].leader == None || answers[k].leader == Some(Follower)
                          || (answers[k].leader == Some(Leader) && answers[k].ready != Some(true))))
      invariant backOffMs == Delay(i)
    {
      var a := answers[i];
      if a.status.Some? {
        if a.status.value.0 == a.status.value.1 {
          return UpToDate, waits;
        }
        if a.leader.Some? {
          if a.leader.value == Crash {
            return Crashed, waits;
          } else if a.leader.value == Leader {
            if a.ready == Some(true) {
              return Converted(a.converted), waits;
            }
          }
        }
      }
      waits := waits + [backOffMs];
      if backOffMs < BACK_OFF_MAX {
        backOffMs := backOffMs * BACK_OFF_MULTIPLIER;
      }
      if backOffMs > BACK_OFF_MAX {
        backOffMs := BACK_OFF_MAX;
      }
    }
    outcome := StillWaiting;
  }
}
