/** Enabling and disabling central on several members at once. A disable looks its own row up, counts the
    central members and deletes its row in three transactions; an enable inserts its row in one and may
    delete it again in another. The transactions of all operations interleave freely. */
module CentralRace {
  import opened Prelude
  import opened Members
  import opened Services

  /** A member may have several operations under way, hence the multisets. */
  datatype State = State(
    view: View,
    seen: multiset<string>,       // disables that have found their row
    passed: multiset<string>,     // disables that have passed the count and will delete their row
    starting: multiset<string>)   // enables that have inserted their row and may roll it back

  datatype Event =
    | Look(self: string)
    | Count(self: string, allowLast: bool)
    | Delete(self: string)
    | DeleteFailed(self: string)
    | Insert(self: string)
    | Started(self: string)       // activated, or left enabled by another error
    | RollBack(self: string)

  function Quiet(view: View): State
  {
    State(view, multiset{}, multiset{}, multiset{})
  }

  function Step(members: seq<Member>, s: State, e: Event): Option<State>
  {
    match e
    case Look(self) =>
      if (self, CENTRAL) in s.view then Some(s.(seen := s.seen + multiset{self})) else None
    case Count(self, allowLast) =>
      if self !in s.seen then None
      else
        var t := s.(seen := s.seen - multiset{self});
        // A refused disable ends here.
        if |Holders(members, s.view, CENTRAL)| == 1 && !allowLast then Some(t)
        else Some(t.(passed := s.passed + multiset{self}))
    case Delete(self) =>
      if self !in s.passed then None
      else Some(s.(view := s.view - {(self, CENTRAL)}, passed := s.passed - multiset{self}))
    case DeleteFailed(self) =>
      if self !in s.passed then None else Some(s.(passed := s.passed - multiset{self}))
    case Insert(self) =>
      if (self, CENTRAL) in s.view || self !in Names(members) then None
      else Some(s.(view := s.view + {(self, CENTRAL)}, starting := s.starting + multiset{self}))
    case Started(self) =>
      if self !in s.starting then None else Some(s.(starting := s.starting - multiset{self}))
    case RollBack(self) =>
      if self !in s.starting then None
      else Some(s.(view := s.view - {(self, CENTRAL)}, starting := s.starting - multiset{self}))
  }

  function Run(members: seq<Member>, s: State, events: seq<Event>): Option<State>
  {
    if events == [] then Some(s)
    else
      var last := |events| - 1;
      match Run(members, s, events[..last])
      case None => None
      case Some(t) => Step(members, t, events[last])
  }

  lemma {:induction false} RunConcat(members: seq<Member>, s: State, a: seq<Event>, b: seq<Event>)
    ensures Run(members, s, a + b) ==
            match Run(members, s, a) case None => None case Some(t) => Run(members, t, b)
  {
    if b == [] {
      assert a + b == a;
    } else {
      var last := |b| - 1;
      RunConcat(members, s, a, b[..last]);
      assert (a + b)[..|a + b| - 1] == a + b[..last];
    }
  }

  lemma RunOne(members: seq<Member>, s: State, e: Event)
    ensures Run(members, s, [e]) == Step(members, s, e)
  {
    assert [e][..0] == [];
  }

  /** Left alone, a disable of central takes exactly these steps. */
  lemma DisableInSteps(members: seq<Member>, view: View, self: string, allowLast: bool)
    requires DisableGuard(members, view, self, CENTRAL, allowLast) == None
    ensures var after := DisableEffect(members, view, self, CENTRAL, allowLast, DisableFaults(false, false, false, false));
            after.1 == None
            && Run(members, Quiet(view), [Look(self)] + [Count(self, allowLast)] + [Delete(self)]) == Some(Quiet(after.0))
  {
    var seen := Quiet(view).(seen := multiset{self});
    var passed := Quiet(view).(passed := multiset{self});
    assert multiset{self} - multiset{self} == multiset{} && multiset{} + multiset{self} == multiset{self};
    RunOne(members, Quiet(view), Look(self));
    RunOne(members, seen, Count(self, allowLast));
    RunConcat(members, Quiet(view), [Look(self)], [Count(self, allowLast)]);
    assert Step(members, seen, Count(self, allowLast)) == Some(passed);
    RunOne(members, passed, Delete(self));
    RunConcat(members, Quiet(view), [Look(self)] + [Count(self, allowLast)], [Delete(self)]);
  }

  /** And an enable whose activation fails is an insert and its rollback. */
  lemma EnableInSteps(members: seq<Member>, view: View, self: string)
    requires (self, CENTRAL) !in view && self in Names(members)
    ensures var after := EnableEffect(members, view, self, CENTRAL, EnableFaults(false, false, false, true, false));
            after.1 == Some(ActivationFailed)
            && Run(members, Quiet(view), [Insert(self)] + [RollBack(self)]) == Some(Quiet(after.0))
  {
    assert CENTRAL in SERVICE_NAMES by { assert SERVICE_NAMES[2] == CENTRAL; }
    var inserted := Quiet(view).(view := view + {(self, CENTRAL)}, starting := multiset{self});
    RunOne(members, Quiet(view), Insert(self));
    RunOne(members, inserted, RollBack(self));
    RunConcat(members, Quiet(view), [Insert(self)], [RollBack(self)]);
    assert view + {(self, CENTRAL)} - {(self, CENTRAL)} == view;
  }

  /** A row goes with a delete or a rollback of its own member, comes with an insert, and moves in no other
      way. */
  lemma OnlyThoseMoveRows(members: seq<Member>, s: State, e: Event, v: (string, string))
    requires Step(members, s, e).Some?
    ensures v in Step(members, s, e).value.view <==>
            if v == (e.self, CENTRAL) && (e.Delete? || e.RollBack?) then false
            else v in s.view || (v == (e.self, CENTRAL) && e.Insert?)
  {
  }

  /** Every operation ends with its last transaction, and only then. */
  lemma OperationsEnd(members: seq<Member>, s: State, e: Event)
    requires Step(members, s, e).Some?
    ensures var t, one := Step(members, s, e).value, multiset{e.self};
            && s.seen + (if e.Look? then one else multiset{}) == t.seen + (if e.Count? then one else multiset{})
            && s.starting + (if e.Insert? then one else multiset{}) ==
               t.starting + (if e.Started? || e.RollBack? then one else multiset{})
            && (e.Delete? || e.DeleteFailed? ==> s.passed == t.passed + one)
  {
  }

  predicate Unpermitted(events: seq<Event>)
  {
    forall e | e in events :: e.Count? ==> !e.allowLast
  }

  /** Some member runs central, and every one that does is about to delete its row or may still do so. */
  ghost predicate Doomed(members: seq<Member>, s: State)
  {
    && SomeCentral(members, s.view)
    && forall m | m in members && (m.name, CENTRAL) in s.view :: m.name in s.passed || m.name in s.starting
  }

  ghost predicate Loses(members: seq<Member>, s: State, events: seq<Event>)
  {
    && Unpermitted(events) && Run(members, s, events).Some?
    && !SomeCentral(members, Run(members, s, events).value.view)
  }

  ghost predicate Dooms(members: seq<Member>, s: State, events: seq<Event>)
  {
    && Unpermitted(events) && Run(members, s, events).Some?
    && Doomed(members, Run(members, s, events).value)
  }

  /** A run that loses central passes a doomed state. */
  lemma {:induction false} LossPassesDoom(members: seq<Member>, s: State, events: seq<Event>) returns (k: nat)
    requires DistinctMembers(members) && SomeCentral(members, s.view) && Loses(members, s, events)
    ensures k < |events| && Dooms(members, s, events[..k])
  {
    var last := |events| - 1;
    var before := Run(members, s, events[..last]).value;
    assert forall e | e in events[..last] :: e in events;
    if SomeCentral(members, before.view) {
      k := last;
      var e, after := events[last], Run(members, s, events).value;
      forall m | m in members && (m.name, CENTRAL) in before.view ensures m.name in before.passed || m.name in before.starting {
        assert (m.name, CENTRAL) !in after.view;
      }
    } else {
      k := LossPassesDoom(members, s, events[..last]);
      assert events[..last][..k] == events[..k];
    }
  }

  function CentralNames(view: View): set<string>
  {
    set v | v in view && v.1 == CENTRAL :: v.0
  }

  /** From a doomed state the deletes that are still due leave no central member. */
  lemma {:induction false} DoomedCanLose(members: seq<Member>, s: State) returns (events: seq<Event>)
    requires Doomed(members, s)
    ensures Loses(members, s, events)
    decreases |CentralNames(s.view)|
  {
    var m :| m in members && (m.name, CENTRAL) in s.view;
    var e := if m.name in s.passed then Delete(m.name) else RollBack(m.name);
    var t := Step(members, s, e).value;
    RunOne(members, s, e);
    assert m.name in CentralNames(s.view);
    assert CentralNames(t.view) <= CentralNames(s.view) - {m.name};
    OneLess(CentralNames(t.view), CentralNames(s.view), m.name);
    if SomeCentral(members, t.view) {
      var rest := DoomedCanLose(members, t);
      RunConcat(members, s, [e], rest);
      events := [e] + rest;
    } else {
      events := [e];
    }
  }

  lemma OneLess(small: set<string>, big: set<string>, name: string)
    requires name in big && small <= big - {name}
    ensures |small| < |big|
  {
    assert big == (big - {name}) + {name};
    SubsetSize(small, big - {name});
  }

  lemma SubsetSize(small: set<string>, big: set<string>)
    requires small <= big
    ensures |small| <= |big|
  {
    assert big == small + (big - small);
  }

  /** Exactly when runs without permission can lose central: when one can reach a state in which every
      remaining central member has passed its check, or was just enabled, and has its delete still due. */
  lemma LossIff(members: seq<Member>, s: State)
    requires DistinctMembers(members) && SomeCentral(members, s.view)
    ensures (exists events :: Loses(members, s, events)) <==> (exists events :: Dooms(members, s, events))
  {
    if events :| Loses(members, s, events) {
      var k := LossPassesDoom(members, s, events);
      assert Dooms(members, s, events[..k]);
    }
    if events :| Dooms(members, s, events) {
      var rest := DoomedCanLose(members, Run(members, s, events).value);
      RunConcat(members, s, events, rest);
      assert Loses(members, s, events + rest);
    }
  }

  // ---- One operation at a time ----

  function InFlight(s: State): nat
  {
    |s.seen| + |s.passed| + |s.starting|
  }

  ghost predicate OneAtATime(members: seq<Member>, s: State, events: seq<Event>)
  {
    forall k | 0 <= k <= |events| :: Run(members, s, events[..k]).Some? && InFlight(Run(members, s, events[..k]).value) <= 1
  }

  /** Some central member has no delete due. */
  ghost predicate Safe(members: seq<Member>, s: State)
  {
    exists m :: m in members && (m.name, CENTRAL) in s.view && m.name !in s.passed && m.name !in s.starting
  }

  lemma AtMostOne(a: multiset<string>, b: multiset<string>, c: multiset<string>, x: string)
    requires |a| + |b| + |c| <= 1 && x in a
    ensures a == multiset{x} && b == multiset{} && c == multiset{}
  {
    assert a == (a - multiset{x}) + multiset{x};
  }

  lemma SoloStep(members: seq<Member>, s: State, e: Event)
    requires DistinctMembers(members) && Safe(members, s) && InFlight(s) <= 1
    requires (e.Count? ==> !e.allowLast) && Step(members, s, e).Some? && InFlight(Step(members, s, e).value) <= 1
    ensures Safe(members, Step(members, s, e).value)
  {
    if e.Count? {
      AtMostOne(s.seen, s.passed, s.starting, e.self);
      SoloCount(members, s, e.self);
    } else {
      SoloOther(members, s, e);
    }
  }

  /** A count that passes has seen a second central member. */
  lemma SoloCount(members: seq<Member>, s: State, self: string)
    requires DistinctMembers(members) && Safe(members, s)
    requires s.seen == multiset{self} && s.passed == multiset{} && s.starting == multiset{}
    ensures Safe(members, Step(members, s, Count(self, false)).value)
  {
    var holders := Holders(members, s.view, CENTRAL);
    HoldersAre(members, s.view, CENTRAL);
    var m :| m in members && (m.name, CENTRAL) in s.view;
    assert m in holders;
    if |holders| != 1 {
      assert holders[0] in holders && holders[1] in holders && holders[0] != holders[1];
      var other := if holders[0].name == self then holders[1] else holders[0];
      assert (other.name, CENTRAL) in s.view && other.name !in multiset{self};
    }
  }

  lemma SoloOther(members: seq<Member>, s: State, e: Event)
    requires Safe(members, s) && !e.Count? && Step(members, s, e).Some?
    ensures Safe(members, Step(members, s, e).value)
  {
    var t := Step(members, s, e).value;
    var m :| m in members && (m.name, CENTRAL) in s.view && m.name !in s.passed && m.name !in s.starting;
    assert (m.name, CENTRAL) in t.view && m.name !in t.passed && m.name !in t.starting;
  }

  /** Without permission, and with never more than one operation under way, no run loses central. */
  lemma {:induction false} SoloKeepsCentral(members: seq<Member>, view: View, events: seq<Event>)
    requires DistinctMembers(members) && SomeCentral(members, view) && Unpermitted(events)
    requires OneAtATime(members, Quiet(view), events)
    ensures Run(members, Quiet(view), events).Some? && Safe(members, Run(members, Quiet(view), events).value)
    ensures !Loses(members, Quiet(view), events) && !Dooms(members, Quiet(view), events)
  {
    assert events[..|events|] == events;
    if events == [] {
      var m :| m in members && (m.name, CENTRAL) in view;
      assert m.name !in Quiet(view).passed;
    } else {
      var last := |events| - 1;
      assert forall e | e in events[..last] :: e in events;
      assert forall k | 0 <= k <= last :: events[..last][..k] == events[..k];
      SoloKeepsCentral(members, view, events[..last]);
      assert events[last] in events;
      SoloStep(members, Run(members, Quiet(view), events[..last]).value, events[last]);
    }
  }

  // ---- All at once ----

  lemma OnePasses(members: seq<Member>, s: State, self: string)
    requires (self, CENTRAL) in s.view && |Holders(members, s.view, CENTRAL)| != 1
    ensures Run(members, s, [Look(self)] + [Count(self, false)]) == Some(s.(passed := s.passed + multiset{self}))
  {
    var seen := s.(seen := s.seen + multiset{self});
    RunOne(members, s, Look(self));
    RunOne(members, seen, Count(self, false));
    RunConcat(members, s, [Look(self)], [Count(self, false)]);
    assert s.seen + multiset{self} - multiset{self} == s.seen;
  }

  lemma {:induction false} AllPass(members: seq<Member>, view: View, who: seq<Member>) returns (events: seq<Event>)
    requires |Holders(members, view, CENTRAL)| != 1
    requires forall m | m in who :: (m.name, CENTRAL) in view
    ensures Unpermitted(events) && Run(members, Quiet(view), events).Some?
    ensures var t := Run(members, Quiet(view), events).value;
            t.view == view && forall m | m in who :: m.name in t.passed
  {
    if who == [] {
      return [];
    }
    var before, m := who[..|who| - 1], who[|who| - 1];
    assert who == before + [m];
    var passing := AllPass(members, view, before);
    events := OneMorePasses(members, view, passing, m.name);
  }

  lemma OneMorePasses(members: seq<Member>, view: View, passing: seq<Event>, self: string) returns (events: seq<Event>)
    requires |Holders(members, view, CENTRAL)| != 1 && (self, CENTRAL) in view
    requires Unpermitted(passing) && Run(members, Quiet(view), passing).Some?
    requires Run(members, Quiet(view), passing).value.view == view
    ensures Unpermitted(events) && Run(members, Quiet(view), events).Some?
    ensures var s, t := Run(members, Quiet(view), passing).value, Run(members, Quiet(view), events).value;
            t.view == view && self in t.passed && forall x | x in s.passed :: x in t.passed
  {
    var two := [Look(self)] + [Count(self, false)];
    OnePasses(members, Run(members, Quiet(view), passing).value, self);
    RunConcat(members, Quiet(view), passing, two);
    events := passing + two;
  }

  /** With at least two central members and no permission at all: when all of them disable central at
      once, every count passes and the deletes leave none. */
  lemma ConcurrentDisablesLoseCentral(members: seq<Member>, view: View) returns (events: seq<Event>)
    requires DistinctMembers(members) && |Holders(members, view, CENTRAL)| >= 2
    ensures Loses(members, Quiet(view), events)
  {
    var holders := Holders(members, view, CENTRAL);
    HoldersAre(members, view, CENTRAL);
    var passing := AllPass(members, view, holders);
    assert holders[0] in holders;
    var t := Run(members, Quiet(view), passing).value;
    var deleting := DoomedCanLose(members, t);
    RunConcat(members, Quiet(view), passing, deleting);
    events := passing + deleting;
  }
}
