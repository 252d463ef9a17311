/**
 The store when it is also written without the lock.

 The lists that readers find stay safe in every run, whatever the two unlocked
 writes do.  What they can do is bring a cleared list back: a call that has read
 it before the reset writes it again.
 */
module ConsensusUnlocked {
  import opened Wrappers
  import opened PendingActions
  import opened ConsensusOverLock
  import C = ConsensusProtocol
  import L = JsonStoreLock

  // ---------- the invariant ----------

  /** The list, and all requests that wait or are held, satisfy the protocol's invariant for it. */
  ghost predicate GoodList(keys: Keys, w: World, list: seq<Action>) {
    && C.Inv(keys, C.State(list, w.todo, w.used))
    && forall p | 0 <= p < |w.held| && w.held[p].Some? :: C.GoodRequest(keys, w.held[p].value, list, w.used)
  }

  /** `seen` is good, and the file still holds it unless it has been emptied since. */
  ghost predicate GoodSeen(keys: Keys, w: World, seen: seq<Action>) {
    GoodList(keys, w, seen) && (Listed(w) == seen || Listed(w) == [])
  }

  /** What a call between its read and its rename works from. */
  ghost predicate GoodReader(keys: Keys, w: World, p: nat)
    requires p < |w.lock.procs| && p < |w.held|
  {
    match w.lock.procs[p]
    case HasRead(_, seen) => GoodSeen(keys, w, seen)
    case Written(_, next) =>
      w.held[p].Some? && exists seen :: GoodSeen(keys, w, seen) && next == C.CommitTo(seen, w.held[p].value)
    case _ => true
  }

  ghost predicate SafeInv(keys: Keys, w: World) {
    && L.Exclusive(w.lock)
    && |w.held| == |w.lock.procs|
    && (forall p | 0 <= p < |w.held| :: Holds(w, p) && GoodReader(keys, w, p))
    && GoodList(keys, w, Listed(w))
  }

  // ---------- new requests ----------

  /** What a handler decides on an empty list is good for every list. */
  lemma RequestsOnEmpty(keys: Keys, list: seq<Action>, todo: seq<Request>, used: set<string>, c: C.Step)
    requires C.Inv(keys, C.State(list, todo, used)) && !c.Commit?
    ensures C.Inv(keys, C.State(list, C.Apply(keys, C.State([], todo, used), c).inflight, used))
  {
    var s := C.State(list, todo, used);
    match c
    case SnapshotApprove(id, email, role) => C.MoreRequests(keys, s, [C.ApproveRequest(keys, [], id, email, role)]);
    case SnapshotExecute(_, _, _, _, _, _, _, _) => C.MoreRequests(keys, s, C.ExecuteRequests(keys, [], c));
    case SnapshotExpiry(now) => C.MoreRequests(keys, s, C.ExpiryRequests([], now));
    case AdminOverride(id) => C.MoreRequests(keys, s, [C.OverrideReq(id)]);
  }

  lemma HandleKeepsList(keys: Keys, w: World, c: C.Step, list: seq<Action>)
    requires Sound(keys) && GoodList(keys, w, list) && !c.Commit? && (Listed(w) == list || Listed(w) == [])
    ensures GoodList(keys, Apply(keys, w, Handle(c)), list)
  {
    if Listed(w) == list {
      C.StepKeepsInv(keys, C.State(list, w.todo, w.used), c);
    } else {
      RequestsOnEmpty(keys, list, w.todo, w.used, c);
    }
  }

  lemma StartKeepsList(keys: Keys, w: World, p: nat, i: nat, list: seq<Action>)
    requires GoodList(keys, w, list) && Enabled(w, Start(p, i))
    ensures GoodList(keys, Apply(keys, w, Start(p, i)), list)
  {
    C.DropKeepsInv(keys, C.State(list, w.todo, w.used), i);
  }

  // ---------- the steps ----------

  lemma EmptyIsGood(keys: Keys, w: World, list: seq<Action>)
    requires GoodList(keys, w, list)
    ensures GoodList(keys, w, [])
  {
  }

  /** Emptying the file, by whichever unlocked write. */
  lemma EmptyingKeepsInv(keys: Keys, w: World, v: World)
    requires SafeInv(keys, w)
    requires v == w.(lock := w.lock.(file := L.Holds([])), seeding := v.seeding)
    ensures SafeInv(keys, v)
  {
    EmptyIsGood(keys, w, Listed(w));
    forall p | 0 <= p < |v.held| ensures Holds(v, p) && GoodReader(keys, v, p) {
      assert Holds(w, p) && GoodReader(keys, w, p);
      SameReader(keys, w, v, p);
    }
  }

  /** A call works from a good list also when only the file was emptied. */
  lemma SameReader(keys: Keys, w: World, v: World, p: nat)
    requires v.todo == w.todo && v.held == w.held && v.used == w.used && (Listed(v) == Listed(w) || Listed(v) == [])
    requires p < |w.lock.procs| && p < |w.held| && p < |v.lock.procs| && v.lock.procs[p] == w.lock.procs[p]
    ensures GoodReader(keys, w, p) ==> GoodReader(keys, v, p)
  {
    if GoodReader(keys, w, p) && w.lock.procs[p].Written? {
      var seen :| GoodSeen(keys, w, seen) && w.lock.procs[p].next == C.CommitTo(seen, w.held[p].value);
      assert GoodSeen(keys, v, seen);
    }
  }

  lemma HandleKeepsInv(keys: Keys, w: World, c: C.Step)
    requires Sound(keys) && SafeInv(keys, w) && !c.Commit?
    ensures SafeInv(keys, Apply(keys, w, Handle(c)))
  {
    var v := Apply(keys, w, Handle(c));
    HandleKeepsList(keys, w, c, Listed(w));
    forall p | 0 <= p < |v.held| ensures Holds(v, p) && GoodReader(keys, v, p) {
      assert Holds(w, p) && GoodReader(keys, w, p);
      match w.lock.procs[p]
      case HasRead(_, seen) => HandleKeepsList(keys, w, c, seen);
      case Written(_, next) =>
        var seen :| GoodSeen(keys, w, seen) && next == C.CommitTo(seen, w.held[p].value);
        HandleKeepsList(keys, w, c, seen);
        assert GoodSeen(keys, v, seen);
      case _ =>
    }
  }

  lemma StartKeepsInv(keys: Keys, w: World, p: nat, i: nat)
    requires SafeInv(keys, w) && Enabled(w, Start(p, i))
    ensures SafeInv(keys, Apply(keys, w, Start(p, i)))
  {
    var v := Apply(keys, w, Start(p, i));
    L.StepKeepsExclusive([], w.lock, L.Begin(p, Update(w.todo[i])));
    StartKeepsList(keys, w, p, i, Listed(w));
    forall q | 0 <= q < |v.held| ensures Holds(v, q) && GoodReader(keys, v, q) {
      assert Holds(w, q) && GoodReader(keys, w, q);
      match v.lock.procs[q]
      case HasRead(_, seen) => StartKeepsList(keys, w, p, i, seen);
      case Written(_, next) =>
        var seen :| GoodSeen(keys, w, seen) && next == C.CommitTo(seen, w.held[q].value);
        StartKeepsList(keys, w, p, i, seen);
        assert GoodSeen(keys, v, seen);
      case _ =>
    }
  }

  /** The list a rename puts into the file, for the request it commits and all others. */
  lemma CommitKeepsList(keys: Keys, w: World, p: nat, seen: seq<Action>)
    requires GoodList(keys, w, seen) && p < |w.held| && w.held[p].Some? && FreshId(w, p) && |w.held| == |w.lock.procs|
    ensures var r := w.held[p].value;
            GoodList(keys, w.(held := w.held[p := None], used := C.UsedAfter(w.used, r)), C.CommitTo(seen, r))
  {
    var r := w.held[p].value;
    C.CommitKeepsInv(keys, C.State(seen, w.todo, w.used), r);
    forall q | 0 <= q < |w.held| && q != p && w.held[q].Some?
      ensures C.GoodRequest(keys, w.held[q].value, C.CommitTo(seen, r), C.UsedAfter(w.used, r))
    {
      var one := C.State(seen, [w.held[q].value], w.used);
      C.CommitKeepsInv(keys, one, r);
      assert one.inflight[0] == w.held[q].value;
    }
  }

  lemma RenameKeepsInv(keys: Keys, w: World, p: nat)
    requires SafeInv(keys, w) && Enabled(w, LockStep(L.Rename(p)))
    ensures SafeInv(keys, Apply(keys, w, LockStep(L.Rename(p))))
  {
    var v := Apply(keys, w, LockStep(L.Rename(p)));
    L.StepKeepsExclusive([], w.lock, L.Rename(p));
    assert GoodReader(keys, w, p) && Holds(w, p);
    var seen :| GoodSeen(keys, w, seen) && w.lock.procs[p].next == C.CommitTo(seen, w.held[p].value);
    CommitKeepsList(keys, w, p, seen);
    forall q | 0 <= q < |v.held| ensures Holds(v, q) && GoodReader(keys, v, q) {
      assert Holds(w, q);
      assert L.Inside(v.lock.procs[q]) ==> q == p;
    }
  }

  /** The other steps of a call: they change neither the list nor the requests. */
  lemma CallKeepsInv(keys: Keys, w: World, l: L.Step<seq<Action>>)
    requires SafeInv(keys, w) && Enabled(w, LockStep(l)) && !l.Rename? && (l.StatAge? ==> !L.Stale(w.lock))
    ensures SafeInv(keys, Apply(keys, w, LockStep(l)))
  {
    var v := Apply(keys, w, LockStep(l));
    L.StepKeepsExclusive([], w.lock, l);
    forall q | 0 <= q < |v.held| ensures Holds(v, q) && GoodReader(keys, v, q) {
      assert Holds(w, q) && GoodReader(keys, w, q);
      if v.lock.procs[q] == w.lock.procs[q] {
        SameReader(keys, w, v, q);
      } else {
        CallReaderGood(keys, w, l, q);
      }
    }
  }

  /** The call that makes the step. */
  lemma CallReaderGood(keys: Keys, w: World, l: L.Step<seq<Action>>, q: nat)
    requires SafeInv(keys, w) && Enabled(w, LockStep(l)) && !l.Rename? && !l.Tick? && l.p == q
    ensures Holds(Apply(keys, w, LockStep(l)), q) && GoodReader(keys, Apply(keys, w, LockStep(l)), q)
  {
    var v := Apply(keys, w, LockStep(l));
    assert Holds(w, q) && GoodReader(keys, w, q);
    if l.WriteTemp? {
      var seen := w.lock.procs[q].seen;
      assert Update(w.held[q].value)(seen) == Some(C.CommitTo(seen, w.held[q].value));
      assert GoodSeen(keys, v, seen);
    }
  }

  lemma StepKeepsSafe(keys: Keys, w: World, step: Step)
    requires Sound(keys) && SafeInv(keys, w) && Enabled(w, step)
    requires step.LockStep? && step.call.StatAge? ==> !L.Stale(w.lock)
    ensures SafeInv(keys, Apply(keys, w, step))
  {
    match step
    case Handle(c) => HandleKeepsInv(keys, w, c);
    case Start(p, i) => StartKeepsInv(keys, w, p, i);
    case LockStep(l) =>
      if l.Rename? {
        RenameKeepsInv(keys, w, l.p);
      } else {
        CallKeepsInv(keys, w, l);
      }
    case FindAbsent =>
      forall p | 0 <= p < |w.held| ensures Holds(Apply(keys, w, step), p) && GoodReader(keys, Apply(keys, w, step), p) {
        assert Holds(w, p) && GoodReader(keys, w, p);
        SameReader(keys, w, Apply(keys, w, step), p);
      }
    case SeedEmpty => EmptyingKeepsInv(keys, w, Apply(keys, w, step));
    case ClearDatabase => EmptyingKeepsInv(keys, w, Apply(keys, w, step));
  }

  lemma {:induction false} RunKeepsSafe(keys: Keys, w: World, steps: seq<Step>)
    requires Sound(keys) && Initial(w) && NeverStale(keys, w, steps) && Run(keys, w, steps).Some?
    ensures SafeInv(keys, Run(keys, w, steps).value)
    decreases |steps|
  {
    if steps != [] {
      var n := |steps| - 1;
      forall k | 0 <= k < n ensures steps[..n][..k] == steps[..k] {
      }
      RunKeepsSafe(keys, w, steps[..n]);
      StepKeepsSafe(keys, Run(keys, w, steps[..n]).value, steps[n]);
    }
  }

  // ---------- main results ----------

  /**
   Consensus safety down to the file system: at every moment of every interleaving of lock-file steps, handlers,
   unlocked readers and unlocked resets, an approved or completed action in the file has its votes by different
   roles and different people other than the initiator, each vote verifies, and a dangerous one has all three roles.
   */
  lemma StoredActionsAreSafe(keys: Keys, w: World, steps: seq<Step>, a: Action)
    requires Sound(keys) && Initial(w) && NeverStale(keys, w, steps) && Run(keys, w, steps).Some?
    requires a in Listed(Run(keys, w, steps).value) && (a.status == Approved || a.status == Completed)
    ensures |a.approvals| >= a.requiredVotes >= 2
    ensures C.DistinctVotes(a)
    ensures forall i | 0 <= i < |a.approvals| :: a.approvals[i].approver != a.initiator
    ensures VerifyActionApprovals(keys, a)
    ensures a.rating == Dangerous ==> |a.approvals| == 3 && C.RolesOf(a.approvals) == {Admin, Developer, Auditor}
  {
    RunKeepsSafe(keys, w, steps);
    var list := Listed(Run(keys, w, steps).value);
    var i :| 0 <= i < |list| && list[i] == a;
    assert C.GoodAction(keys, list[i]);
    C.GoodIsSafe(keys, a);
  }

  // ---------- exactly when a reset is undone ----------

  function Cleared(keys: Keys, w: World): World {
    Apply(keys, w, ClearDatabase)
  }

  /** File-system steps of call `p` alone. */
  ghost predicate CallSteps(steps: seq<Step>, p: nat) {
    forall k | 0 <= k < |steps| :: steps[k].LockStep? && !steps[k].call.Tick? && steps[k].call.p == p
  }

  ghost predicate SharesId(list: seq<Action>, other: seq<Action>) {
    exists i, j | 0 <= i < |list| && 0 <= j < |other| :: list[i].id == other[j].id
  }

  /**
   After a reset some call, by file-system steps of its own, puts an action back into the file that the reset removed.
   */
  ghost predicate ResetCanBeUndone(keys: Keys, w: World) {
    exists p: nat, steps: seq<Step> ::
      && CallSteps(steps, p) && Run(keys, Cleared(keys, w), steps).Some?
      && SharesId(Listed(Run(keys, Cleared(keys, w), steps).value), Listed(w))
  }

  /** A call has read the list and not yet renamed, and nothing keeps it from renaming. */
  ghost predicate IsAboutToWrite(w: World, p: nat) {
    p < |w.lock.procs| && (w.lock.procs[p].HasRead? || w.lock.procs[p].Written?) && FreshId(w, p)
  }

  // ---------- a call that has read brings the list back ----------

  lemma CommitKeepsIds(list: seq<Action>, r: Request)
    requires list != []
    ensures SharesId(C.CommitTo(list, r), list)
  {
    var after := C.CommitTo(list, r);
    if r.CreateReq? {
      assert after[1].id == list[0].id;
    } else {
      assert after[0].id == list[0].id;
    }
  }

  lemma WriterBringsBack(keys: Keys, w: World, p: nat) returns (steps: seq<Step>)
    requires SafeInv(keys, w) && Listed(w) != [] && IsAboutToWrite(w, p)
    ensures CallSteps(steps, p) && Run(keys, Cleared(keys, w), steps).Some?
    ensures SharesId(Listed(Run(keys, Cleared(keys, w), steps).value), Listed(w))
  {
    WriterHolds(keys, w, p);
    CommitKeepsIds(Listed(w), w.held[p].value);
    if w.lock.procs[p].HasRead? {
      steps := ReaderWrites(keys, Cleared(keys, w), p, w.held[p].value, Listed(w));
    } else {
      steps := WriterRenames(keys, Cleared(keys, w), p, C.CommitTo(Listed(w), w.held[p].value));
    }
  }

  lemma WriterRenames(keys: Keys, w: World, p: nat, list: seq<Action>) returns (steps: seq<Step>)
    requires p < |w.lock.procs| && w.lock.procs[p].Written? && w.lock.procs[p].next == list && FreshId(w, p)
    ensures CallSteps(steps, p) && Run(keys, w, steps).Some? && Listed(Run(keys, w, steps).value) == list
  {
    Renamed(keys, w, p, list);
    Extend(keys, w, [], w, LockStep(L.Rename(p)));
    steps := [] + [LockStep(L.Rename(p))];
  }

  lemma WriterHolds(keys: Keys, w: World, p: nat)
    requires SafeInv(keys, w) && Listed(w) != [] && IsAboutToWrite(w, p)
    ensures w.held[p].Some?
    ensures w.lock.procs[p].HasRead? ==>
              w.lock.procs[p].op == Update(w.held[p].value) && w.lock.procs[p].seen == Listed(w)
    ensures w.lock.procs[p].Written? ==> w.lock.procs[p].next == C.CommitTo(Listed(w), w.held[p].value)
  {
    assert Holds(w, p) && GoodReader(keys, w, p);
  }

  lemma ReaderWrites(keys: Keys, w: World, p: nat, r: Request, seen: seq<Action>) returns (steps: seq<Step>)
    requires p < |w.lock.procs| && w.lock.procs[p].HasRead? && FreshId(w, p)
    requires w.lock.procs[p].op == Update(r) && w.lock.procs[p].seen == seen
    ensures CallSteps(steps, p) && Run(keys, w, steps).Some? && Listed(Run(keys, w, steps).value) == C.CommitTo(seen, r)
  {
    var v := TempWritten(keys, w, p, r, seen);
    Extend(keys, w, [], w, LockStep(L.WriteTemp(p)));
    Renamed(keys, v, p, C.CommitTo(seen, r));
    Extend(keys, w, [] + [LockStep(L.WriteTemp(p))], v, LockStep(L.Rename(p)));
    steps := [] + [LockStep(L.WriteTemp(p))] + [LockStep(L.Rename(p))];
  }

  lemma TempWritten(keys: Keys, w: World, p: nat, r: Request, seen: seq<Action>) returns (v: World)
    requires p < |w.lock.procs| && p < |w.held| && w.lock.procs[p] == L.HasRead(Update(r), seen)
    ensures Enabled(w, LockStep(L.WriteTemp(p))) && v == Apply(keys, w, LockStep(L.WriteTemp(p)))
    ensures p < |v.lock.procs| && v.lock.procs[p] == L.Written(Update(r), C.CommitTo(seen, r))
    ensures v.held == w.held && v.used == w.used
  {
    assert Update(r)(seen) == Some(C.CommitTo(seen, r));
    v := Apply(keys, w, LockStep(L.WriteTemp(p)));
  }

  lemma Renamed(keys: Keys, w: World, p: nat, list: seq<Action>)
    requires p < |w.lock.procs| && w.lock.procs[p].Written? && w.lock.procs[p].next == list && FreshId(w, p)
    ensures Enabled(w, LockStep(L.Rename(p))) && Listed(Apply(keys, w, LockStep(L.Rename(p)))) == list
  {
  }

  // ---------- no other call does ----------

  ghost predicate IsNew(list: seq<Action>, gone: set<string>) {
    forall i | 0 <= i < |list| :: list[i].id !in gone
  }

  lemma CommitIsNew(list: seq<Action>, r: Request, gone: set<string>)
    requires IsNew(list, gone) && (r.CreateReq? ==> r.action.id !in gone)
    ensures IsNew(C.CommitTo(list, r), gone)
  {
  }

  /** Nothing that call `p` has in its hands holds an id of `gone`, or its rename is blocked. */
  ghost predicate HandsClean(w: World, p: nat, gone: set<string>) {
    && |w.held| == |w.lock.procs| && gone <= w.used && IsNew(Listed(w), gone)
    && (p < |w.held| ==>
          && Holds(w, p)
          && match w.lock.procs[p]
             case HasRead(_, seen) => IsNew(seen, gone) || !FreshId(w, p)
             case Written(_, next) =>
               !FreshId(w, p) ||
               (w.held[p].Some? && exists seen :: IsNew(seen, gone) && next == C.CommitTo(seen, w.held[p].value))
             case _ => true)
  }

  lemma HandsStayClean(keys: Keys, w: World, step: Step, p: nat, gone: set<string>)
    requires HandsClean(w, p, gone) && Enabled(w, step) && CallSteps([step], p)
    ensures HandsClean(Apply(keys, w, step), p, gone)
  {
    assert step == [step][0];
    var l := step.call;
    if l.Rename? {
      var seen :| IsNew(seen, gone) && w.lock.procs[p].next == C.CommitTo(seen, w.held[p].value);
      CommitIsNew(seen, w.held[p].value, gone);
    } else if l.WriteTemp? {
      WriteTempClean(keys, w, p, gone);
    }
  }

  lemma WriteTempClean(keys: Keys, w: World, p: nat, gone: set<string>)
    requires HandsClean(w, p, gone) && Enabled(w, LockStep(L.WriteTemp(p)))
    ensures HandsClean(Apply(keys, w, LockStep(L.WriteTemp(p))), p, gone)
  {
    var seen := w.lock.procs[p].seen;
    assert Update(w.held[p].value)(seen) == Some(C.CommitTo(seen, w.held[p].value));
    var v := Apply(keys, w, LockStep(L.WriteTemp(p)));
    assert FreshId(v, p) <==> FreshId(w, p);
  }

  lemma {:induction false} CallStaysClean(keys: Keys, w: World, steps: seq<Step>, p: nat, gone: set<string>)
    requires HandsClean(w, p, gone) && CallSteps(steps, p) && Run(keys, w, steps).Some?
    ensures HandsClean(Run(keys, w, steps).value, p, gone)
    decreases |steps|
  {
    if steps != [] {
      var n := |steps| - 1;
      CallStaysClean(keys, w, steps[..n], p, gone);
      assert CallSteps([steps[n]], p);
      HandsStayClean(keys, Run(keys, w, steps[..n]).value, steps[n], p, gone);
    }
  }

  ghost function Ids(list: seq<Action>): set<string> {
    set i | 0 <= i < |list| :: list[i].id
  }

  lemma ClearedIsClean(keys: Keys, w: World, p: nat)
    requires SafeInv(keys, w) && !(Listed(w) != [] && IsAboutToWrite(w, p))
    ensures HandsClean(Cleared(keys, w), p, Ids(Listed(w)))
  {
    if p < |w.held| {
      assert Holds(w, p) && GoodReader(keys, w, p);
      if Listed(w) == [] && w.lock.procs[p].Written? {
        var seen :| GoodSeen(keys, w, seen) && w.lock.procs[p].next == C.CommitTo(seen, w.held[p].value);
        assert IsNew(seen, Ids([]));
      }
    }
  }

  /**
   A reset is undone exactly when it comes between a call's read and its rename: afterwards a call brings a removed
   action back, by file-system steps of its own, if and only if there was one and some call had already read the list.
   */
  lemma ResetUndoneIff(keys: Keys, w: World)
    requires SafeInv(keys, w)
    ensures ResetCanBeUndone(keys, w) <==> Listed(w) != [] && exists p :: IsAboutToWrite(w, p)
  {
    if p :| Listed(w) != [] && IsAboutToWrite(w, p) {
      var steps := WriterBringsBack(keys, w, p);
    } else {
      forall p: nat, steps: seq<Step> | CallSteps(steps, p) && Run(keys, Cleared(keys, w), steps).Some?
        ensures !SharesId(Listed(Run(keys, Cleared(keys, w), steps).value), Listed(w))
      {
        ClearedIsClean(keys, w, p);
        CallStaysClean(keys, Cleared(keys, w), steps, p, Ids(Listed(w)));
      }
    }
  }

  // ---------- a run in which it is undone ----------

  const ONE_CALL := World(L.State([L.Idle], None, L.Holds([]), 0, []), [], [None], 0, {C.DUMMY_ID})

  /** The world in which the action is stored and nobody is inside. */
  function Stored(entered: seq<L.Modify<seq<Action>>>): World {
    World(L.State([L.Idle], None, L.Holds([CREATED]), 0, entered), [], [None], 0, {C.DUMMY_ID, "act_1"})
  }

  lemma ActionStored(keys: Keys) returns (steps: seq<Step>, w: World)
    ensures Initial(ONE_CALL) && Run(keys, ONE_CALL, steps) == Some(w) && w == Stored(w.lock.entered)
  {
    assert C.ExecuteRequests(keys, [], CREATE) == [C.CreateReq(CREATED)];
    assert [] + [C.CreateReq(CREATED)] == [C.CreateReq(CREATED)];
    steps, w := CommitsAlone(keys, ONE_CALL, [], ONE_CALL, Handle(CREATE), C.CreateReq(CREATED));
    CommitsCreated();
    assert {C.DUMMY_ID} + {"act_1"} == {C.DUMMY_ID, "act_1"};
  }

  /**
   An action is stored; a second call reads it to record an override;
   the database is cleared; the call writes the action back.
   */
  lemma ResetIsUndone(keys: Keys) returns (before: seq<Step>, w: World)
    ensures var steps := before + [ClearDatabase] + [LockStep(L.WriteTemp(0)), LockStep(L.Rename(0))];
            Run(keys, ONE_CALL, steps) == Some(w) && Listed(w) == [CREATED.(overridden := true)]
  {
    var v: World;
    before, v := OverrideReads(keys);
    Extend(keys, ONE_CALL, before, v, ClearDatabase);
    var steps: seq<Step>;
    steps, w := CallWrites(keys, ONE_CALL, before + [ClearDatabase], Apply(keys, v, ClearDatabase),
                           C.OverrideReq("act_1"), [CREATED]);
    assert C.CommitTo([CREATED], C.OverrideReq("act_1")) == [CREATED.(overridden := true)];
  }

  /** The call that records the override has read the stored action. */
  lemma OverrideReads(keys: Keys) returns (steps: seq<Step>, w: World)
    ensures Run(keys, ONE_CALL, steps) == Some(w) && |w.held| == |w.lock.procs| == 1
    ensures w.held[0] == Some(C.OverrideReq("act_1"))
    ensures w.lock.procs[0] == L.HasRead(Update(C.OverrideReq("act_1")), [CREATED])
  {
    var stored, v := ActionStored(keys);
    var over := C.OverrideReq("act_1");
    assert v.todo + [over] == [over];
    var again, v1 := TakeUp(keys, ONE_CALL, stored, v, Handle(C.AdminOverride("act_1")), over);
    steps, w := CallReads(keys, ONE_CALL, again, v1, over);
  }

  /** A handler makes one request, and call 0 takes it up. */
  lemma TakeUp(keys: Keys, w: World, steps: seq<Step>, v: World, h: Step, r: Request)
    returns (more: seq<Step>, u: World)
    requires Run(keys, w, steps) == Some(v) && h.Handle? && Enabled(v, h) && v.todo == []
    requires |v.held| == |v.lock.procs| > 0 && v.lock.procs[0].Idle? && Apply(keys, v, h) == v.(todo := [r])
    ensures more == steps + [h, Start(0, 0)] && Run(keys, w, more) == Some(u)
    ensures u == v.(held := v.held[0 := Some(r)],
                    lock := v.lock.(procs := v.lock.procs[0 := L.Creating(Update(r), v.lock.clock)]))
  {
    var v1 := v.(todo := [r]);
    Extend(keys, w, steps, v, h);
    u := Apply(keys, v1, Start(0, 0));
    assert v1.todo[..0] + v1.todo[1..] == [];
    Extend(keys, w, steps + [h], v1, Start(0, 0));
    more := steps + [h] + [Start(0, 0)];
  }

  lemma CallLeaves(keys: Keys, w: World, steps: seq<Step>, v: World) returns (more: seq<Step>, u: World)
    requires Run(keys, w, steps) == Some(v) && |v.held| == |v.lock.procs| > 0
    requires v.lock.procs[0].Leaving? && v.lock.lock.Some?
    ensures more == steps + [LockStep(L.LookForLock(0)), LockStep(L.UnlinkLock(0))] && Run(keys, w, more) == Some(u)
    ensures u == v.(lock := v.lock.(procs := v.lock.procs[0 := L.Idle], lock := None))
  {
    var v1 := Apply(keys, v, LockStep(L.LookForLock(0)));
    Extend(keys, w, steps, v, LockStep(L.LookForLock(0)));
    u := Apply(keys, v1, LockStep(L.UnlinkLock(0)));
    Extend(keys, w, steps + [LockStep(L.LookForLock(0))], v1, LockStep(L.UnlinkLock(0)));
    assert v.lock.procs[0 := L.Unlinking][0 := L.Idle] == v.lock.procs[0 := L.Idle];
    more := steps + [LockStep(L.LookForLock(0))] + [LockStep(L.UnlinkLock(0))];
  }

  /** Call 0 commits one request while nobody holds the lock. */
  lemma CommitsAlone(keys: Keys, w: World, steps: seq<Step>, v: World, h: Step, r: Request)
    returns (more: seq<Step>, u: World)
    requires Run(keys, w, steps) == Some(v) && h.Handle? && Enabled(v, h) && v.todo == []
    requires |v.held| == |v.lock.procs| > 0 && v.lock.procs[0].Idle? && v.held[0] == None && v.lock.lock == None
    requires Apply(keys, v, h) == v.(todo := [r]) && (r.CreateReq? ==> r.action.id !in v.used)
    ensures Run(keys, w, more) == Some(u)
    ensures u == v.(lock := v.lock.(file := L.Holds(C.CommitTo(Listed(v), r)), entered := v.lock.entered + [Update(r)]),
                    used := C.UsedAfter(v.used, r))
  {
    var taken, v1 := TakeUp(keys, w, steps, v, h, r);
    more, u := CommitsTaken(keys, w, taken, v1, r);
    assert v.lock.procs[0 := L.Creating(Update(r), v.lock.clock)][0 := L.Idle] == v.lock.procs;
    assert v.held[0 := Some(r)][0 := None] == v.held;
  }

  /** ... from where it is about to create the lock file. */
  lemma CommitsTaken(keys: Keys, w: World, steps: seq<Step>, v: World, r: Request) returns (more: seq<Step>, u: World)
    requires Run(keys, w, steps) == Some(v) && |v.held| == |v.lock.procs| > 0 && v.held[0] == Some(r)
    requires v.lock.lock == None && v.lock.procs[0].Creating? && v.lock.procs[0].op == Update(r)
    requires r.CreateReq? ==> r.action.id !in v.used
    ensures Run(keys, w, more) == Some(u)
    ensures u == v.(lock := v.lock.(procs := v.lock.procs[0 := L.Idle], file := L.Holds(C.CommitTo(Listed(v), r)),
                                    entered := v.lock.entered + [Update(r)]),
                    held := v.held[0 := None], used := C.UsedAfter(v.used, r))
  {
    var read, v1 := CallReads(keys, w, steps, v, r);
    var stored, v2 := CallWrites(keys, w, read, v1, r, Listed(v));
    more, u := CallLeaves(keys, w, stored, v2);
    assert v.lock.procs[0 := L.HasRead(Update(r), Listed(v))][0 := L.Leaving][0 := L.Idle] == v.lock.procs[0 := L.Idle];
  }
}
