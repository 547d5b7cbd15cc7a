/** Rolling a new CA out: the member that changes the shared CA notifies all the others and then
    handles the change itself. A handler copies the CA to disk and re-issues the certificates of its
    services; for each file it reads the shared CA in one step and writes the file in another, and the
    handlers of several changes may overlap, even on one member. */
module CaRollout {
  import opened Prelude
  import opened CaReissue

  /** The files of one member that depend on the CA. */
  datatype Item = CaFile | Certificate(service: string)

  /** Everything one handler does, in order. */
  function Items(e: Enabled): seq<Item>
  {
    [CaFile] + seq(|OvnServices(e)|, i requires 0 <= i < |OvnServices(e)| => Certificate(OvnServices(e)[i]))
  }

  /** How many CA changes had been stored when the CA for a file was read, and when it was written. */
  datatype Copy = Copy(read: nat, written: nat)

  /** A notification on its way, or the handler it started. `todo` is what is not done yet, and `read`
      the CA that the handler has read for the first item, by the number of changes before. */
  datatype Task = Task(member: string, todo: seq<Item>, read: Option<nat>)

  datatype Cluster = Cluster(
    cas: seq<int>,                      // every CA that was ever stored; the last one is the shared CA
    files: map<(string, Item), Copy>,   // an absent entry is a missing or cut-short file
    tasks: seq<Task>,
    failed: set<(string, Item)>)        // reported failures that no later success has repaired

  datatype Event =
    | ChangeCa(ca: int)
    | ReadCa(task: nat)
    | WriteFile(task: nat)
    | Fail(task: nat, cut: bool)   // some command for the next file fails, and has or has not cut it short
    | Lost(task: nat)              // the member cannot be reached, or its handler dies

  datatype Members = Members(names: seq<string>, enabled: map<string, Enabled>)

  ghost predicate WellFormed(ms: Members)
  {
    forall m | m in ms.names :: m in ms.enabled
  }

  function NewTasks(ms: Members): seq<Task>
  {
    seq(|ms.names|, i requires 0 <= i < |ms.names| =>
      Task(ms.names[i], if ms.names[i] in ms.enabled then Items(ms.enabled[ms.names[i]]) else [], None))
  }

  function Pairs(m: string, items: seq<Item>): set<(string, Item)>
  {
    set it | it in items :: (m, it)
  }

  /** How many CAs were stored before the shared one. */
  function Changes(c: Cluster): nat
    requires c.cas != []
  {
    |c.cas| - 1
  }

  function Step(ms: Members, c: Cluster, e: Event): Option<Cluster>
    requires c.cas != []
  {
    match e
    case ChangeCa(ca) =>
      // An unchanged CA notifies nobody.
      Some(if ca == c.cas[Changes(c)] then c else c.(cas := c.cas + [ca], tasks := c.tasks + NewTasks(ms)))
    case ReadCa(i) =>
      if i >= |c.tasks| || c.tasks[i].todo == [] || c.tasks[i].read.Some? then None
      else
        // A certificate file is created, and thereby emptied, before the CA is read.
        var t := c.tasks[i];
        Some(c.(files := if t.todo[0] == CaFile then c.files else c.files - {(t.member, t.todo[0])},
                tasks := c.tasks[i := t.(read := Some(Changes(c)))]))
    case WriteFile(i) =>
      if i >= |c.tasks| || c.tasks[i].todo == [] || c.tasks[i].read == None then None
      else
        var t := c.tasks[i];
        var file := (t.member, t.todo[0]);
        Some(c.(files := c.files[file := Copy(t.read.value, Changes(c))],
                failed := c.failed - {file},
                tasks := c.tasks[i := Task(t.member, t.todo[1..], None)]))
    case Fail(i, cut) =>
      if i >= |c.tasks| || c.tasks[i].todo == [] then None
      else
        var t := c.tasks[i];
        var file := (t.member, t.todo[0]);
        var files := if cut then c.files - {file} else c.files;
        if t.todo[0] == CaFile then
          // Without the CA file the handler gives up.
          Some(c.(files := files, failed := c.failed + Pairs(t.member, t.todo), tasks := c.tasks[i := Task(t.member, [], None)]))
        else
          Some(c.(files := files, failed := c.failed + {file}, tasks := c.tasks[i := Task(t.member, t.todo[1..], None)]))
    case Lost(i) =>
      if i >= |c.tasks| then None
      else
        var t := c.tasks[i];
        Some(c.(failed := c.failed + Pairs(t.member, t.todo), tasks := c.tasks[i := Task(t.member, [], None)]))
  }

  function Run(ms: Members, c: Cluster, events: seq<Event>): (r: Option<Cluster>)
    requires c.cas != []
    ensures r.Some? ==> r.value.cas != [] && c.cas <= r.value.cas
  {
    if events == [] then Some(c)
    else
      var last := |events| - 1;
      match Run(ms, c, events[..last])
      case None => None
      case Some(d) => Step(ms, d, events[last])
  }

  /** Numbers that were counted, and handlers of members for their own files. */
  ghost predicate Valid(ms: Members, c: Cluster)
  {
    && WellFormed(ms) && c.cas != []
    && (forall f | f in c.files :: c.files[f].read <= c.files[f].written <= Changes(c))
    && (forall i | 0 <= i < |c.tasks| :: ValidTask(ms, c.tasks[i], Changes(c)))
  }

  ghost predicate ValidTask(ms: Members, t: Task, changes: nat)
  {
    && t.member in ms.enabled
    && (t.read.Some? ==> t.read.value <= changes)
    && forall it | it in t.todo :: it in Items(ms.enabled[t.member])
  }

  /** The file was made with the CA that is shared now. */
  ghost predicate Matches(c: Cluster, m: string, item: Item)
    requires c.cas != []
  {
    (m, item) in c.files && c.files[(m, item)].read < |c.cas| && c.cas[c.files[(m, item)].read] == c.cas[Changes(c)]
  }

  /** Some notification for the member is undelivered, or its handler has not come to the item yet. */
  ghost predicate Pending(c: Cluster, m: string, item: Item)
  {
    exists i :: 0 <= i < |c.tasks| && c.tasks[i].member == m && item in c.tasks[i].todo
  }

  /** The CA changed between the reading and the writing of the copy that is there. */
  ghost predicate Overtaken(c: Cluster, m: string, item: Item)
  {
    (m, item) in c.files && c.files[(m, item)].read < c.files[(m, item)].written
  }

  /** The file was written after the last change. */
  ghost predicate WrittenLate(c: Cluster, m: string, item: Item)
    requires c.cas != []
  {
    (m, item) in c.files && c.files[(m, item)].written == Changes(c)
  }

  ghost predicate Covered(ms: Members, c: Cluster)
    requires c.cas != []
  {
    forall m, item | m in ms.names && m in ms.enabled && item in Items(ms.enabled[m]) ::
      WrittenLate(c, m, item) || Pending(c, m, item) || (m, item) in c.failed
  }

  /** What a failing command does: the CA file comes first, and without it the handler gives up and
      reports everything; a failing certificate is reported and the next one is tried. */
  lemma FailureReports(ms: Members, c: Cluster, i: nat, cut: bool)
    requires c.cas != [] && Step(ms, c, Fail(i, cut)).Some?
    ensures var t, d := c.tasks[i], Step(ms, c, Fail(i, cut)).value;
            && d.tasks[i].todo == (if t.todo[0] == CaFile then [] else t.todo[1..]) && d.tasks[i].read == None
            && (forall it | it in t.todo && it !in d.tasks[i].todo :: (t.member, it) in d.failed)
            && ((t.member, t.todo[0]) in d.files <==> (t.member, t.todo[0]) in c.files && !cut)
            && d.cas == c.cas
    ensures forall e :: Items(e)[0] == CaFile
  {
    var t := c.tasks[i];
    assert t.todo == [t.todo[0]] + t.todo[1..];
  }

  /** A lost handler is over, and everything it had to do is reported. */
  lemma LossReports(ms: Members, c: Cluster, i: nat)
    requires c.cas != [] && i < |c.tasks|
    ensures var d := Step(ms, c, Lost(i)).value;
            && d.tasks[i].todo == [] && d.tasks[i].read == None && d.files == c.files
            && (forall it | it in c.tasks[i].todo :: (c.tasks[i].member, it) in d.failed)
  {
  }

  /** A change notifies every member once, and an unchanged CA nobody. */
  lemma ChangeNotifiesAll(ms: Members, c: Cluster, ca: int)
    requires WellFormed(ms) && c.cas != []
    ensures var d := Step(ms, c, ChangeCa(ca)).value;
            && (ca == c.cas[Changes(c)] ==> d == c)
            && (ca != c.cas[Changes(c)] ==>
                  && d.cas == c.cas + [ca] && |d.tasks| == |c.tasks| + |ms.names| && d.tasks[..|c.tasks|] == c.tasks
                  && forall i | 0 <= i < |ms.names| ::
                       d.tasks[|c.tasks| + i] == Task(ms.names[i], Items(ms.enabled[ms.names[i]]), None))
  {
    forall i | 0 <= i < |ms.names| ensures ms.names[i] in ms.enabled {
    }
  }

  lemma StepKeepsValid(ms: Members, c: Cluster, e: Event)
    requires Valid(ms, c) && Step(ms, c, e).Some?
    ensures Valid(ms, Step(ms, c, e).value)
  {
    var d := Step(ms, c, e).value;
    forall i | 0 <= i < |d.tasks| ensures ValidTask(ms, d.tasks[i], Changes(d)) {
      if i < |c.tasks| {
        assert ValidTask(ms, c.tasks[i], Changes(c));
        if !e.ChangeCa? && e.task == i {
          TaskStaysValid(ms, c.tasks[i], d.tasks[i], Changes(c));
        }
      } else {
        assert d.tasks[i] == NewTasks(ms)[i - |c.tasks|];
        NewTaskValid(ms, i - |c.tasks|, Changes(d));
      }
    }
  }

  lemma NewTaskValid(ms: Members, i: nat, changes: nat)
    requires WellFormed(ms) && i < |ms.names|
    ensures ValidTask(ms, NewTasks(ms)[i], changes)
  {
    assert ms.names[i] in ms.names;
  }

  lemma TaskStaysValid(ms: Members, t: Task, u: Task, changes: nat)
    requires ValidTask(ms, t, changes) && u.member == t.member && (u.read.Some? ==> u.read.value <= changes)
    requires u.todo == t.todo || u.todo == [] || (t.todo != [] && u.todo == t.todo[1..])
    ensures ValidTask(ms, u, changes)
  {
  }

  lemma StepKeepsCovered(ms: Members, c: Cluster, e: Event)
    requires Valid(ms, c) && Covered(ms, c) && Step(ms, c, e).Some?
    ensures Covered(ms, Step(ms, c, e).value)
  {
    var d := Step(ms, c, e).value;
    forall m, item | m in ms.names && m in ms.enabled && item in Items(ms.enabled[m])
      ensures WrittenLate(d, m, item) || Pending(d, m, item) || (m, item) in d.failed
    {
      if e.ChangeCa? {
        if d != c {
          NewTaskPends(ms, c, d, m, item);
        }
      } else {
        HandlerStep(ms, c, e, m, item);
      }
    }
  }

  lemma NewTaskPends(ms: Members, c: Cluster, d: Cluster, m: string, item: Item)
    requires m in ms.names && m in ms.enabled && item in Items(ms.enabled[m])
    requires d.tasks == c.tasks + NewTasks(ms)
    ensures Pending(d, m, item)
  {
    var i :| 0 <= i < |ms.names| && ms.names[i] == m;
    var k := |c.tasks| + i;
    assert d.tasks[k] == NewTasks(ms)[i];
    assert d.tasks[k].member == m && item in d.tasks[k].todo;
  }

  lemma HandlerStep(ms: Members, c: Cluster, e: Event, m: string, item: Item)
    requires c.cas != [] && !e.ChangeCa? && Step(ms, c, e).Some?
    requires WrittenLate(c, m, item) || Pending(c, m, item) || (m, item) in c.failed
    ensures var d := Step(ms, c, e).value; WrittenLate(d, m, item) || Pending(d, m, item) || (m, item) in d.failed
  {
    var d := Step(ms, c, e).value;
    var t := c.tasks[e.task];
    if Pending(c, m, item) {
      var i :| 0 <= i < |c.tasks| && c.tasks[i].member == m && item in c.tasks[i].todo;
      if i != e.task {
        assert d.tasks[i] == c.tasks[i];
      } else {
        StillPending(c, d, e.task, m, item);
      }
    } else if e.ReadCa? {
      // The file that is emptied is one that the handler is about to write.
      NextPends(c, e.task);
    }
  }

  lemma NextPends(c: Cluster, i: nat)
    requires i < |c.tasks| && c.tasks[i].todo != []
    ensures Pending(c, c.tasks[i].member, c.tasks[i].todo[0])
  {
    assert c.tasks[i].todo[0] in c.tasks[i].todo;
  }

  lemma StillPending(c: Cluster, d: Cluster, i: nat, m: string, item: Item)
    requires i < |c.tasks| == |d.tasks| && d.tasks[i].member == m && item in c.tasks[i].todo
    ensures d.tasks[i].todo == c.tasks[i].todo ==> Pending(d, m, item)
    ensures d.tasks[i].todo == c.tasks[i].todo[1..] && item != c.tasks[i].todo[0] ==> Pending(d, m, item)
  {
    var todo := c.tasks[i].todo;
    assert todo == [todo[0]] + todo[1..];
    if d.tasks[i].todo == todo || (d.tasks[i].todo == todo[1..] && item != todo[0]) {
      assert item in d.tasks[i].todo;
    }
  }

  lemma {:induction false} RunKeepsCovered(ms: Members, c: Cluster, events: seq<Event>)
    requires Valid(ms, c) && Covered(ms, c) && Run(ms, c, events).Some?
    ensures Valid(ms, Run(ms, c, events).value) && Covered(ms, Run(ms, c, events).value)
  {
    if events != [] {
      var last := |events| - 1;
      RunKeepsCovered(ms, c, events[..last]);
      var d := Run(ms, c, events[..last]).value;
      StepKeepsValid(ms, d, events[last]);
      StepKeepsCovered(ms, d, events[last]);
    }
  }

  /** No CA is stored twice. */
  ghost predicate Fresh(cas: seq<int>)
  {
    forall i, j | 0 <= i < j < |cas| :: cas[i] != cas[j]
  }

  /** Over any interleaving of CA changes, deliveries and handler steps: a file that does not match the
      shared CA has an undelivered or unfinished handler, or a reported failure, or the handler that
      wrote it last was overtaken by a change. And an overtaken file never matches, unless an old CA is
      stored again. */
  lemma MismatchIsPending(ms: Members, c: Cluster, events: seq<Event>, m: string, item: Item)
    requires Valid(ms, c) && Covered(ms, c) && Run(ms, c, events).Some?
    requires m in ms.names && item in Items(ms.enabled[m])
    ensures var d := Run(ms, c, events).value;
            && (Matches(d, m, item) || Pending(d, m, item) || (m, item) in d.failed || Overtaken(d, m, item))
            && (Fresh(d.cas) && Overtaken(d, m, item) ==> !Matches(d, m, item))
  {
    RunKeepsCovered(ms, c, events);
    var d := Run(ms, c, events).value;
    assert WrittenLate(d, m, item) || Pending(d, m, item) || (m, item) in d.failed;
    if (m, item) in d.files {
      assert d.files[(m, item)].read <= d.files[(m, item)].written <= Changes(d);
    }
  }

  predicate AllDelivered(events: seq<Event>)
  {
    forall e | e in events :: !e.Lost? && !e.Fail?
  }

  ghost predicate AllDone(c: Cluster)
  {
    forall t | t in c.tasks :: t.todo == []
  }

  lemma {:induction false} NothingReported(ms: Members, c: Cluster, events: seq<Event>)
    requires c.cas != [] && Run(ms, c, events).Some? && AllDelivered(events) && c.failed == {}
    ensures Run(ms, c, events).value.failed == {}
  {
    if events != [] {
      var last := |events| - 1;
      assert events[last] in events && forall e | e in events[..last] :: e in events;
      NothingReported(ms, c, events[..last]);
    }
  }

  /** When every notification was delivered and every issue succeeded, and all handlers are done, a file
      matches the stored CA if and only if the handler that wrote it last was not overtaken. */
  lemma RolloutConvergesIff(ms: Members, c: Cluster, events: seq<Event>, m: string, item: Item)
    requires Valid(ms, c) && Covered(ms, c) && c.failed == {}
    requires Run(ms, c, events).Some? && AllDelivered(events) && AllDone(Run(ms, c, events).value)
    requires m in ms.names && item in Items(ms.enabled[m])
    ensures var d := Run(ms, c, events).value;
            && (m, item) in d.files
            && (!Overtaken(d, m, item) ==> Matches(d, m, item))
            && (Fresh(d.cas) ==> (Matches(d, m, item) <==> !Overtaken(d, m, item)))
  {
    var d := Run(ms, c, events).value;
    RunKeepsCovered(ms, c, events);
    NothingReported(ms, c, events);
    MismatchIsPending(ms, c, events, m, item);
    assert !Pending(d, m, item);
  }

  // ---- What being overtaken means for the events ----

  predicate OfTask(e: Event, task: nat)
  {
    !e.ChangeCa? && e.task == task
  }

  /** Event `w` of a run writes the file. */
  ghost predicate Writes(ms: Members, c: Cluster, events: seq<Event>, w: nat, m: string, item: Item)
    requires c.cas != []
  {
    && w < |events| && events[w].WriteFile? && Run(ms, c, events[..w]).Some?
    && var d := Run(ms, c, events[..w]).value;
       && events[w].task < |d.tasks| && d.tasks[events[w].task].member == m
       && d.tasks[events[w].task].todo != [] && d.tasks[events[w].task].todo[0] == item
  }

  /** The changes before event `k`. */
  ghost function ChangesAt(ms: Members, c: Cluster, events: seq<Event>, k: nat): int
    requires c.cas != [] && k <= |events|
  {
    var d := Run(ms, c, events[..k]);
    if d.Some? then Changes(d.value) else -1
  }

  /** Event `w` is the last one that writes the file, and `k` is the reading it uses. */
  ghost predicate LastWrite(ms: Members, c: Cluster, events: seq<Event>, m: string, item: Item, k: nat, w: nat)
    requires c.cas != []
  {
    && k < w && Writes(ms, c, events, w, m, item) && events[k] == ReadCa(events[w].task)
    && (forall j | k < j < w :: !OfTask(events[j], events[w].task))
    && (forall j | w < j < |events| :: !Writes(ms, c, events, j, m, item))
  }

  lemma SamePrefix(events: seq<Event>, j: nat)
    requires events != [] && j < |events|
    ensures events[..|events| - 1][..j] == events[..j]
  {
  }

  /** A reading in hand is not touched by others, and a new handler has none. */
  lemma ReadingStays(ms: Members, c: Cluster, e: Event, task: nat)
    requires c.cas != [] && Step(ms, c, e).Some? && !OfTask(e, task)
    requires var d := Step(ms, c, e).value; task < |d.tasks| && d.tasks[task].read.Some?
    ensures task < |c.tasks| && c.tasks[task] == Step(ms, c, e).value.tasks[task]
  {
    assert forall i | 0 <= i < |ms.names| :: NewTasks(ms)[i].read == None;
  }

  /** A reading in hand was taken by the last step of its handler. */
  lemma {:induction false} ReadingHistory(ms: Members, c: Cluster, events: seq<Event>, task: nat) returns (k: nat)
    requires c.cas != [] && Run(ms, c, events).Some? && forall t | t in c.tasks :: t.read == None
    requires var d := Run(ms, c, events).value; task < |d.tasks| && d.tasks[task].read.Some?
    ensures k < |events| && events[k] == ReadCa(task) && forall j | k < j < |events| :: !OfTask(events[j], task)
    ensures Run(ms, c, events).value.tasks[task].read == Some(ChangesAt(ms, c, events, k))
  {
    assert forall i | 0 <= i < |c.tasks| :: c.tasks[i] in c.tasks;
    var last := |events| - 1;
    var before, e := Run(ms, c, events[..last]).value, events[last];
    if e == ReadCa(task) {
      k := last;
    } else {
      assert !OfTask(e, task);
      ReadingStays(ms, before, e, task);
      k := ReadingHistory(ms, c, events[..last], task);
      SamePrefix(events, k);
      assert forall j | k < j < last :: events[..last][j] == events[j];
    }
  }

  /** A file that the run has written carries the numbers of its last write. */
  lemma {:induction false} CopyHistory(ms: Members, c: Cluster, events: seq<Event>, m: string, item: Item, w0: nat)
    returns (k: nat, w: nat)
    requires c.cas != [] && Run(ms, c, events).Some? && forall t | t in c.tasks :: t.read == None
    requires Writes(ms, c, events, w0, m, item) && (m, item) in Run(ms, c, events).value.files
    ensures LastWrite(ms, c, events, m, item, k, w)
    ensures ChangesAt(ms, c, events, k) >= 0 && ChangesAt(ms, c, events, w) >= 0
    ensures Run(ms, c, events).value.files[(m, item)] ==
            Copy(ChangesAt(ms, c, events, k), ChangesAt(ms, c, events, w))
  {
    var last := |events| - 1;
    var before, e := Run(ms, c, events[..last]).value, events[last];
    if Writes(ms, c, events, last, m, item) {
      k := ReadingHistory(ms, c, events[..last], e.task);
      w := last;
      SamePrefix(events, k);
      assert forall j | k < j < last :: events[..last][j] == events[j];
    } else {
      SamePrefix(events, w0);
      assert w0 < last && Writes(ms, c, events[..last], w0, m, item);
      assert (m, item) in before.files && before.files[(m, item)] == Run(ms, c, events).value.files[(m, item)];
      k, w := CopyHistory(ms, c, events[..last], m, item, w0);
      LastWriteGrows(ms, c, events, m, item, k, w);
    }
  }

  lemma WritesEarlier(ms: Members, c: Cluster, events: seq<Event>, j: nat, m: string, item: Item)
    requires c.cas != [] && events != [] && j < |events| - 1
    ensures Writes(ms, c, events, j, m, item) <==> Writes(ms, c, events[..|events| - 1], j, m, item)
  {
    SamePrefix(events, j);
    assert events[..|events| - 1][j] == events[j];
  }

  lemma LastWriteGrows(ms: Members, c: Cluster, events: seq<Event>, m: string, item: Item, k: nat, w: nat)
    requires c.cas != [] && events != [] && LastWrite(ms, c, events[..|events| - 1], m, item, k, w)
    requires !Writes(ms, c, events, |events| - 1, m, item)
    ensures LastWrite(ms, c, events, m, item, k, w)
    ensures ChangesAt(ms, c, events, k) == ChangesAt(ms, c, events[..|events| - 1], k)
    ensures ChangesAt(ms, c, events, w) == ChangesAt(ms, c, events[..|events| - 1], w)
  {
    var last := |events| - 1;
    SamePrefix(events, k);
    SamePrefix(events, w);
    forall j | w <= j < last ensures Writes(ms, c, events, j, m, item) <==> Writes(ms, c, events[..last], j, m, item) {
      WritesEarlier(ms, c, events, j, m, item);
    }
    forall j | k < j < w ensures !OfTask(events[j], events[w].task) {
      assert events[..last][j] == events[j];
    }
  }

  /** So a file is overtaken exactly when the CA changed between its last write and the reading that the
      write used. */
  lemma OvertakenIff(ms: Members, c: Cluster, events: seq<Event>, m: string, item: Item, w0: nat)
    returns (k: nat, w: nat)
    requires c.cas != [] && Run(ms, c, events).Some? && forall t | t in c.tasks :: t.read == None
    requires Writes(ms, c, events, w0, m, item) && (m, item) in Run(ms, c, events).value.files
    ensures LastWrite(ms, c, events, m, item, k, w)
    ensures Overtaken(Run(ms, c, events).value, m, item) <==>
            ChangesAt(ms, c, events, k) < ChangesAt(ms, c, events, w)
  {
    k, w := CopyHistory(ms, c, events, m, item, w0);
  }

  lemma {:induction false} UnwrittenStays(ms: Members, c: Cluster, events: seq<Event>, m: string, item: Item)
    requires c.cas != [] && Run(ms, c, events).Some? && (m, item) in Run(ms, c, events).value.files
    requires forall w | 0 <= w < |events| :: !Writes(ms, c, events, w, m, item)
    ensures (m, item) in c.files && Run(ms, c, events).value.files[(m, item)] == c.files[(m, item)]
  {
    if events != [] {
      var last := |events| - 1;
      assert !Writes(ms, c, events, last, m, item);
      forall w | 0 <= w < last ensures !Writes(ms, c, events[..last], w, m, item) {
        assert !Writes(ms, c, events, w, m, item);
        WritesEarlier(ms, c, events, w, m, item);
      }
      UnwrittenStays(ms, c, events[..last], m, item);
    }
  }

  /** The same in terms of the events alone, for a complete rollout of at least one new CA: every file was
      written in the run, and it matches the stored CA if and only if the reading that its last write
      used was taken after the last change. */
  lemma ConvergesByReading(ms: Members, c: Cluster, events: seq<Event>, m: string, item: Item) returns (k: nat, w: nat)
    requires Valid(ms, c) && Covered(ms, c) && c.failed == {} && forall t | t in c.tasks :: t.read == None
    requires Run(ms, c, events).Some? && AllDelivered(events) && AllDone(Run(ms, c, events).value)
    requires m in ms.names && item in Items(ms.enabled[m])
    requires var d := Run(ms, c, events).value; Fresh(d.cas) && |c.cas| < |d.cas|
    ensures LastWrite(ms, c, events, m, item, k, w)
    ensures var d := Run(ms, c, events).value;
            Matches(d, m, item) <==> ChangesAt(ms, c, events, k) == Changes(d)
  {
    var d := Run(ms, c, events).value;
    RunKeepsCovered(ms, c, events);
    RolloutConvergesIff(ms, c, events, m, item);
    NothingReported(ms, c, events);
    assert !Pending(d, m, item) && WrittenLate(d, m, item);
    var w0: nat :| Writes(ms, c, events, w0, m, item) by {
      if forall w | 0 <= w < |events| :: !Writes(ms, c, events, w, m, item) {
        UnwrittenStays(ms, c, events, m, item);
        assert false;
      }
    }
    k, w := CopyHistory(ms, c, events, m, item, w0);
  }

  // ---- When no handler holds a reading ----

  /** No CA is stored while a handler is between its reading and its write. */
  ghost predicate Undisturbed(ms: Members, c: Cluster, events: seq<Event>)
    requires c.cas != []
  {
    forall k | 0 <= k < |events| && events[k].ChangeCa? ::
      Run(ms, c, events[..k]).Some? ==> forall t | t in Run(ms, c, events[..k]).value.tasks :: t.read == None
  }

  ghost predicate UpToDate(c: Cluster)
    requires c.cas != []
  {
    && (forall t | t in c.tasks && t.read.Some? :: t.read.value == Changes(c))
    && (forall f | f in c.files :: c.files[f].read == c.files[f].written)
  }

  lemma UpToDateStep(ms: Members, c: Cluster, e: Event)
    requires c.cas != [] && UpToDate(c) && Step(ms, c, e).Some?
    requires e.ChangeCa? ==> forall t | t in c.tasks :: t.read == None
    ensures UpToDate(Step(ms, c, e).value)
  {
    var d := Step(ms, c, e).value;
    assert forall i | 0 <= i < |ms.names| :: NewTasks(ms)[i].read == None;
    assert forall t | t in d.tasks && t.read.Some? :: t.read.value == Changes(d);
    if e.WriteFile? {
      assert c.tasks[e.task] in c.tasks;
    }
  }

  lemma {:induction false} UndisturbedRun(ms: Members, c: Cluster, events: seq<Event>)
    requires c.cas != [] && UpToDate(c) && Run(ms, c, events).Some? && Undisturbed(ms, c, events)
    ensures UpToDate(Run(ms, c, events).value)
  {
    if events != [] {
      var last := |events| - 1;
      forall k | 0 <= k < last ensures events[..last][..k] == events[..k] && events[..last][k] == events[k] {
      }
      UndisturbedRun(ms, c, events[..last]);
      UpToDateStep(ms, Run(ms, c, events[..last]).value, events[last]);
    }
  }

  /** Then the rollout converges: every re-issued file of every member matches in the end. */
  lemma UndisturbedConverges(ms: Members, c: Cluster, events: seq<Event>, m: string, item: Item)
    requires Valid(ms, c) && Covered(ms, c) && UpToDate(c) && c.failed == {}
    requires Run(ms, c, events).Some? && AllDelivered(events) && AllDone(Run(ms, c, events).value)
    requires Undisturbed(ms, c, events) && m in ms.names && item in Items(ms.enabled[m])
    ensures Matches(Run(ms, c, events).value, m, item)
  {
    UndisturbedRun(ms, c, events);
    RolloutConvergesIff(ms, c, events, m, item);
  }

  // ---- The certificates in use ----

  lemma ItemsHave(e: Enabled, service: string)
    ensures Certificate(service) in Items(e) <==> service in OvnServices(e)
  {
    var services := OvnServices(e);
    assert forall i | 0 <= i < |services| :: Items(e)[i + 1] == Certificate(services[i]);
    if Certificate(service) in Items(e) {
      var i :| 0 <= i < |Items(e)| && Items(e)[i] == Certificate(service);
      assert services[i - 1] == service;
    }
  }

  /** A file that is not re-issued keeps its copy. */
  lemma {:induction false} OthersStay(ms: Members, c: Cluster, events: seq<Event>, m: string, item: Item)
    requires Valid(ms, c) && Run(ms, c, events).Some?
    requires m in ms.enabled && item !in Items(ms.enabled[m])
    ensures Valid(ms, Run(ms, c, events).value)
    ensures var d := Run(ms, c, events).value;
            ((m, item) in d.files <==> (m, item) in c.files)
            && ((m, item) in c.files ==> d.files[(m, item)] == c.files[(m, item)])
  {
    if events != [] {
      var last := |events| - 1;
      OthersStay(ms, c, events[..last], m, item);
      var d := Run(ms, c, events[..last]).value;
      StepKeepsValid(ms, d, events[last]);
      if !events[last].ChangeCa? && d.tasks[events[last].task].todo != [] {
        var t := d.tasks[events[last].task];
        assert ValidTask(ms, t, Changes(d)) && t.todo[0] in t.todo;
      }
    }
  }

  /** After a complete rollout of at least one new CA, in which no handler was overtaken, the certificates
      in use on a member all match the stored CA if and only if no chassis runs there without the switch
      service. */
  lemma InUseConvergesIff(ms: Members, c: Cluster, events: seq<Event>, m: string)
    requires Valid(ms, c) && Covered(ms, c) && UpToDate(c) && c.failed == {}
    requires Run(ms, c, events).Some? && AllDelivered(events) && AllDone(Run(ms, c, events).value)
    requires Undisturbed(ms, c, events) && m in ms.names
    requires var d := Run(ms, c, events).value; Fresh(d.cas) && |c.cas| < |d.cas|
    ensures var e := ms.enabled[m];
            (forall s | s in CertificatesInUse(e) :: Matches(Run(ms, c, events).value, m, Certificate(s)))
            <==> (e.chassis ==> e.switch)
  {
    var e, d := ms.enabled[m], Run(ms, c, events).value;
    ReissueCoversInUseIff(e);
    if e.chassis ==> e.switch {
      forall s | s in CertificatesInUse(e) ensures Matches(d, m, Certificate(s)) {
        ItemsHave(e, s);
        UndisturbedConverges(ms, c, events, m, Certificate(s));
      }
    } else {
      var s :| s in CertificatesInUse(e) && s !in OvnServices(e);
      ItemsHave(e, s);
      OthersStay(ms, c, events, m, Certificate(s));
      if (m, Certificate(s)) in c.files {
        assert c.files[(m, Certificate(s))].read <= Changes(c);
      }
      assert !Matches(d, m, Certificate(s));
    }
  }

  // ---- A schedule that goes wrong ----

  const ALONE: Enabled := Enabled(false, false, false)
  const ONE_MEMBER: Members := Members(["a"], map["a" := ALONE])
  const SETTLED: Cluster :=
    Cluster([0], map[("a", CaFile) := Copy(0, 0), ("a", Certificate("client")) := Copy(0, 0)], [], {})
  const OVERLAP: seq<Event> :=
    [] + [ChangeCa(1)] + [ReadCa(0)] + [ChangeCa(2)] + [ReadCa(1)] + [WriteFile(1)] + [WriteFile(0)]

  function OneTask(items: nat, read: Option<nat>): Task
    requires items <= 2
  {
    Task("a", if items == 0 then [] else if items == 1 then [Certificate("client")] else [CaFile, Certificate("client")], read)
  }

  lemma NextItem(d: Cluster, i: nat, items: nat, read: nat)
    requires d.cas != [] && 1 <= items <= 2 && i < |d.tasks|
    ensures d.tasks[i] == OneTask(items, None) ==>
              var file := ("a", d.tasks[i].todo[0]);
              Step(ONE_MEMBER, d, ReadCa(i)) ==
              Some(d.(files := if items == 2 then d.files else d.files - {file},
                      tasks := d.tasks[i := OneTask(items, Some(Changes(d)))]))
    ensures d.tasks[i] == OneTask(items, Some(read)) ==>
              var file := ("a", d.tasks[i].todo[0]);
              Step(ONE_MEMBER, d, WriteFile(i)) ==
              Some(d.(files := d.files[file := Copy(read, Changes(d))], failed := d.failed - {file},
                      tasks := d.tasks[i := OneTask(items - 1, None)]))
  {
    assert [CaFile, Certificate("client")][1..] == [Certificate("client")] && [Certificate("client")][1..] == [];
  }

  lemma Extend(events: seq<Event>, d: Cluster, e: Event, t: Cluster)
    requires d.cas != [] && Run(ONE_MEMBER, SETTLED, events) == Some(d) && Step(ONE_MEMBER, d, e) == Some(t)
    ensures Run(ONE_MEMBER, SETTLED, events + [e]) == Some(t)
  {
    assert (events + [e])[..|events|] == events;
  }

  lemma OneNewTask()
    ensures Items(ALONE) == [CaFile, Certificate("client")] && NewTasks(ONE_MEMBER) == [OneTask(2, None)]
  {
    assert OvnServices(ALONE) == ["client"];
  }

  lemma TwoChanges()
    ensures Run(ONE_MEMBER, SETTLED, [] + [ChangeCa(1)] + [ReadCa(0)] + [ChangeCa(2)]) ==
            Some(SETTLED.(cas := [0, 1, 2], tasks := [OneTask(2, Some(1)), OneTask(2, None)]))
  {
    OneNewTask();
    var both := OneTask(2, None);
    var c1 := SETTLED.(cas := [0, 1], tasks := [both]);
    assert SETTLED.cas + [1] == c1.cas && SETTLED.tasks + NewTasks(ONE_MEMBER) == c1.tasks;
    Extend([], SETTLED, ChangeCa(1), c1);
    var c2 := c1.(tasks := [OneTask(2, Some(1))]);
    NextItem(c1, 0, 2, 1);
    assert c1.tasks[0 := OneTask(2, Some(1))] == c2.tasks;
    Extend([] + [ChangeCa(1)], c1, ReadCa(0), c2);
    var c3 := c2.(cas := [0, 1, 2], tasks := [OneTask(2, Some(1)), both]);
    assert c2.cas + [2] == c3.cas && c2.tasks + NewTasks(ONE_MEMBER) == c3.tasks;
    Extend([] + [ChangeCa(1)] + [ReadCa(0)], c2, ChangeCa(2), c3);
  }

  /** The handler of the first change reads, the second change is stored and its handler reads and
      writes, and only then the first one writes. */
  lemma OverlapRun()
    ensures Run(ONE_MEMBER, SETTLED, OVERLAP) ==
            Some(Cluster([0, 1, 2], map[("a", CaFile) := Copy(1, 2), ("a", Certificate("client")) := Copy(0, 0)],
                         [OneTask(1, None), OneTask(1, None)], {}))
  {
    TwoChanges();
    var e3 := [] + [ChangeCa(1)] + [ReadCa(0)] + [ChangeCa(2)];
    var c3 := SETTLED.(cas := [0, 1, 2], tasks := [OneTask(2, Some(1)), OneTask(2, None)]);
    var c4 := c3.(tasks := [OneTask(2, Some(1)), OneTask(2, Some(2))]);
    NextItem(c3, 1, 2, 1);
    assert c3.tasks[1 := OneTask(2, Some(2))] == c4.tasks;
    Extend(e3, c3, ReadCa(1), c4);
    var file, client := ("a", CaFile), ("a", Certificate("client"));
    var c5 := c4.(files := map[file := Copy(2, 2), client := Copy(0, 0)], tasks := [OneTask(2, Some(1)), OneTask(1, None)]);
    assert c4.files[file := Copy(2, 2)] == c5.files && c4.failed - {file} == {};
    NextItem(c4, 1, 2, 2);
    assert c4.tasks[1 := OneTask(1, None)] == c5.tasks;
    Extend(e3 + [ReadCa(1)], c4, WriteFile(1), c5);
    var c6 := c5.(files := map[file := Copy(1, 2), client := Copy(0, 0)], tasks := [OneTask(1, None), OneTask(1, None)]);
    assert c5.files[file := Copy(1, 2)] == c6.files;
    NextItem(c5, 0, 2, 1);
    assert c5.tasks[0 := OneTask(1, None)] == c6.tasks;
    Extend(e3 + [ReadCa(1)] + [WriteFile(1)], c5, WriteFile(0), c6);
    assert e3 + [ReadCa(1)] + [WriteFile(1)] + [WriteFile(0)] == OVERLAP;
  }

  /** A handler finishes with the client certificate. */
  lemma ClientRun(events: seq<Event>, c: Cluster, i: nat)
    requires Run(ONE_MEMBER, SETTLED, events) == Some(c) && c.cas == [0, 1, 2] && c.failed == {}
    requires i < |c.tasks| && c.tasks[i] == OneTask(1, None)
    ensures Run(ONE_MEMBER, SETTLED, events + [ReadCa(i)] + [WriteFile(i)]) ==
            Some(c.(files := c.files[("a", Certificate("client")) := Copy(2, 2)], tasks := c.tasks[i := OneTask(0, None)]))
  {
    var file := ("a", Certificate("client"));
    var read := c.(files := c.files - {file}, tasks := c.tasks[i := OneTask(1, Some(2))]);
    NextItem(c, i, 1, 2);
    Extend(events, c, ReadCa(i), read);
    var written := c.(files := c.files[file := Copy(2, 2)], tasks := c.tasks[i := OneTask(0, None)]);
    NextItem(read, i, 1, 2);
    assert read.files[file := Copy(2, 2)] == written.files && read.tasks[i := OneTask(0, None)] == written.tasks;
    assert read.failed - {file} == {};
    Extend(events + [ReadCa(i)], read, WriteFile(i), written);
  }

  const OVERTAKEN: Cluster :=
    Cluster([0, 1, 2], map[("a", CaFile) := Copy(1, 2), ("a", Certificate("client")) := Copy(2, 2)],
            [OneTask(0, None), OneTask(0, None)], {})

  lemma WholeRun()
    ensures Run(ONE_MEMBER, SETTLED, OVERLAP + [ReadCa(0)] + [WriteFile(0)] + [ReadCa(1)] + [WriteFile(1)]) == Some(OVERTAKEN)
  {
    OverlapRun();
    var file := ("a", Certificate("client"));
    var c6 := Run(ONE_MEMBER, SETTLED, OVERLAP).value;
    ClientRun(OVERLAP, c6, 0);
    var c8 := c6.(files := c6.files[file := Copy(2, 2)], tasks := [OneTask(0, None), OneTask(1, None)]);
    assert c6.tasks[0 := OneTask(0, None)] == c8.tasks;
    ClientRun(OVERLAP + [ReadCa(0)] + [WriteFile(0)], c8, 1);
    assert c8.files[file := Copy(2, 2)] == OVERTAKEN.files && c8.tasks[1 := OneTask(0, None)] == OVERTAKEN.tasks;
  }

  lemma SettledStart()
    ensures Valid(ONE_MEMBER, SETTLED) && Covered(ONE_MEMBER, SETTLED) && UpToDate(SETTLED)
  {
    OneNewTask();
  }

  lemma OvertakenEnd()
    ensures AllDone(OVERTAKEN) && OVERTAKEN.failed == {} && Fresh(OVERTAKEN.cas)
    ensures Overtaken(OVERTAKEN, "a", CaFile) && !Matches(OVERTAKEN, "a", CaFile)
  {
    assert OVERTAKEN.cas[0] == 0 && OVERTAKEN.cas[1] == 1 && OVERTAKEN.cas[2] == 2;
  }

  /** One member, two changes, everything is delivered, nothing fails and nothing is left to do: and yet
      the CA file holds the old CA. */
  lemma OvertakenHandlerWins() returns (events: seq<Event>, end: Cluster)
    ensures Valid(ONE_MEMBER, SETTLED) && Covered(ONE_MEMBER, SETTLED) && UpToDate(SETTLED)
    ensures AllDelivered(events) && Run(ONE_MEMBER, SETTLED, events) == Some(end)
    ensures AllDone(end) && end.failed == {} && end.cas != [] && Fresh(end.cas)
    ensures Overtaken(end, "a", CaFile) && !Matches(end, "a", CaFile)
  {
    SettledStart();
    WholeRun();
    OvertakenEnd();
    events := OVERLAP + [ReadCa(0)] + [WriteFile(0)] + [ReadCa(1)] + [WriteFile(1)];
    end := OVERTAKEN;
  }
}
