/**
 The consensus protocol when a lock is broken.

 A call that is paused between its read and its rename for more than ten seconds loses its lock to a waiting
 one, and its rename then overwrites what the other has stored.  The main lemma shows that only such a late
 rename can take approvals away; the run at the end shows that one does.
 */
module ConsensusStale {
  import opened Wrappers
  import opened PendingActions
  import opened ConsensusOverLock
  import opened ConsensusUnlocked
  import C = ConsensusProtocol
  import L = JsonStoreLock

  // ---------- without a late rename ----------

  /** What the call renames into place is what its request makes of the list then in the file. */
  ghost predicate IsTimely(w: World, p: nat) {
    && p < |w.lock.procs| && p < |w.held|
    && w.lock.procs[p].Written? && w.held[p].Some?
    && w.lock.procs[p].next == C.CommitTo(Listed(w), w.held[p].value)
  }

  ghost predicate NeverLate(keys: Keys, w: World, steps: seq<Step>) {
    forall k | 0 <= k < |steps| && steps[k].LockStep? && steps[k].call.Rename? ::
      var v := Run(keys, w, steps[..k]);
      v.Some? && Enabled(v.value, steps[k]) ==> IsTimely(v.value, steps[k].call.p)
  }

  /** No more than this holds where locks are broken: whoever is inside, the file holds a good list. */
  ghost predicate FileIsGood(keys: Keys, w: World) {
    |w.held| == |w.lock.procs| && GoodList(keys, w, Listed(w))
  }

  lemma StepKeepsFile(keys: Keys, w: World, step: Step)
    requires Sound(keys) && FileIsGood(keys, w) && Enabled(w, step)
    requires step.LockStep? && step.call.Rename? ==> IsTimely(w, step.call.p)
    ensures FileIsGood(keys, Apply(keys, w, step))
  {
    match step
    case Handle(c) => HandleKeepsList(keys, w, c, Listed(w));
    case Start(p, i) => StartKeepsList(keys, w, p, i, Listed(w));
    case LockStep(l) =>
      if l.Rename? {
        CommitKeepsList(keys, w, l.p, Listed(w));
      }
    case FindAbsent =>
    case SeedEmpty => EmptyIsGood(keys, w, Listed(w));
    case ClearDatabase => EmptyIsGood(keys, w, Listed(w));
  }

  lemma {:induction false} RunKeepsFile(keys: Keys, w: World, steps: seq<Step>)
    requires Sound(keys) && Initial(w) && NeverLate(keys, w, steps) && Run(keys, w, steps).Some?
    ensures FileIsGood(keys, Run(keys, w, steps).value)
    decreases |steps|
  {
    if steps != [] {
      var n := |steps| - 1;
      forall k | 0 <= k < n ensures steps[..n][..k] == steps[..k] {
      }
      RunKeepsFile(keys, w, steps[..n]);
      StepKeepsFile(keys, Run(keys, w, steps[..n]).value, steps[n]);
    }
  }

  /**
   Only a late rename breaks consensus: in every run in which each rename commits its request to the list then in the
   file, whatever locks are found stale and broken, approved and completed actions in the file have their votes.
   */
  lemma OnlyLateRenamesBreakConsensus(keys: Keys, w: World, steps: seq<Step>, a: Action)
    requires Sound(keys) && Initial(w) && NeverLate(keys, w, steps) && Run(keys, w, steps).Some?
    requires a in Listed(Run(keys, w, steps).value) && (a.status == Approved || a.status == Completed)
    ensures |a.approvals| >= a.requiredVotes >= 2 && C.DistinctVotes(a) && VerifyActionApprovals(keys, a)
    ensures forall i | 0 <= i < |a.approvals| :: a.approvals[i].approver != a.initiator
    ensures a.rating == Dangerous ==> |a.approvals| == 3 && C.RolesOf(a.approvals) == {Admin, Developer, Auditor}
  {
    RunKeepsFile(keys, w, steps);
    var list := Listed(Run(keys, w, steps).value);
    var i :| 0 <= i < |list| && list[i] == a;
    assert C.GoodAction(keys, list[i]);
    C.GoodIsSafe(keys, a);
  }

  // ---------- exactly when a rename can come to be late ----------

  /** A waiting call commits its request by file-system steps of its own, while the clock stands still. */
  ghost predicate CommitsBeside(keys: Keys, w: World, q: nat, steps: seq<Step>) {
    CallSteps(steps, q) && Run(keys, w, steps).Some? && Listed(Run(keys, w, steps).value) != Listed(w)
  }

  /** What stays while the lock of another call is young: the waiting call does not get in. */
  ghost predicate KeptOut(w: World, v: World, q: nat) {
    && q < |v.lock.procs| && v.lock.lock == w.lock.lock && v.lock.clock == w.lock.clock && v.lock.file == w.lock.file
    && (v.lock.procs[q].Refused? || v.lock.procs[q].Creating? || v.lock.procs[q].Idle?)
  }

  lemma KeptOutStep(keys: Keys, w: World, v: World, q: nat, step: Step)
    requires KeptOut(w, v, q) && w.lock.lock.Some? && !L.Stale(w.lock)
    requires Enabled(v, step) && CallSteps([step], q)
    ensures KeptOut(w, Apply(keys, v, step), q)
  {
    assert step == [step][0];
  }

  lemma {:induction false} StaysOut(keys: Keys, w: World, q: nat, steps: seq<Step>)
    requires KeptOut(w, w, q) && w.lock.lock.Some? && !L.Stale(w.lock)
    requires CallSteps(steps, q) && Run(keys, w, steps).Some?
    ensures KeptOut(w, Run(keys, w, steps).value, q)
    decreases |steps|
  {
    if steps != [] {
      var n := |steps| - 1;
      StaysOut(keys, w, q, steps[..n]);
      assert CallSteps([steps[n]], q);
      KeptOutStep(keys, w, Run(keys, w, steps[..n]).value, q, steps[n]);
    }
  }

  /** The waiting call breaks the stale lock, takes it and reads. */
  lemma BreaksAndReads(keys: Keys, w: World, q: nat, op: L.Modify<seq<Action>>, start: int)
    returns (steps: seq<Step>, v: World)
    requires q < |w.lock.procs| && w.lock.procs[q] == L.Refused(op, start) && L.Stale(w.lock)
    ensures steps == [LockStep(L.StatAge(q)), LockStep(L.BreakLock(q)), LockStep(L.TryCreate(q)), LockStep(L.Read(q))]
    ensures Run(keys, w, steps) == Some(v) && v.held == w.held && v.used == w.used
    ensures |v.lock.procs| == |w.lock.procs| && v.lock.procs[q] == L.HasRead(op, Listed(w))
  {
    var v1 := Apply(keys, w, LockStep(L.StatAge(q)));
    Extend(keys, w, [], w, LockStep(L.StatAge(q)));
    var v2 := Apply(keys, v1, LockStep(L.BreakLock(q)));
    Extend(keys, w, [] + [LockStep(L.StatAge(q))], v1, LockStep(L.BreakLock(q)));
    steps, v := TakesAndReads(keys, w, [] + [LockStep(L.StatAge(q))] + [LockStep(L.BreakLock(q))], v2, q, op);
  }

  lemma TakesAndReads(keys: Keys, w: World, steps: seq<Step>, v: World, q: nat, op: L.Modify<seq<Action>>)
    returns (more: seq<Step>, u: World)
    requires Run(keys, w, steps) == Some(v) && q < |v.lock.procs|
    requires v.lock.procs[q].Creating? && v.lock.procs[q].op == op && v.lock.lock == None
    ensures more == steps + [LockStep(L.TryCreate(q)), LockStep(L.Read(q))] && Run(keys, w, more) == Some(u)
    ensures u == v.(lock := L.State(v.lock.procs[q := L.HasRead(op, Listed(v))], Some(L.LockFile(q, v.lock.clock)),
                                    v.lock.file, v.lock.clock, v.lock.entered + [op]))
  {
    var v1 := Apply(keys, v, LockStep(L.TryCreate(q)));
    Extend(keys, w, steps, v, LockStep(L.TryCreate(q)));
    u := Apply(keys, v1, LockStep(L.Read(q)));
    Extend(keys, w, steps + [LockStep(L.TryCreate(q))], v1, LockStep(L.Read(q)));
    more := steps + [LockStep(L.TryCreate(q))] + [LockStep(L.Read(q))];
    assert v.lock.procs[q := L.Entered(op)][q := L.HasRead(op, Listed(v))] ==
           v.lock.procs[q := L.HasRead(op, Listed(v))];
  }

  lemma {:induction false} RunsOn(keys: Keys, w: World, first: seq<Step>, v: World, second: seq<Step>)
    requires Run(keys, w, first) == Some(v)
    ensures Run(keys, w, first + second) == Run(keys, v, second)
    decreases |second|
  {
    if second == [] {
      assert first + second == first;
    } else {
      var n := |second| - 1;
      RunsOn(keys, w, first, v, second[..n]);
      FrontAndLast(first, second, n);
    }
  }

  lemma FrontAndLast(first: seq<Step>, second: seq<Step>, n: nat)
    requires |second| == n + 1
    ensures |first + second| - 1 == |first| + n
    ensures (first + second)[..|first + second| - 1] == first + second[..n]
    ensures (first + second)[|first + second| - 1] == second[n]
  {
  }

  lemma BreaksAndCommits(keys: Keys, w: World, q: nat) returns (steps: seq<Step>)
    requires q < |w.held| == |w.lock.procs| && w.lock.procs[q].Refused?
    requires Holds(w, q) && FreshId(w, q) && L.Stale(w.lock)
    requires C.CommitTo(Listed(w), w.held[q].value) != Listed(w)
    ensures CommitsBeside(keys, w, q, steps)
  {
    var r := w.held[q].value;
    var first, v := BreaksAndReads(keys, w, q, w.lock.procs[q].op, w.lock.procs[q].start);
    var second := ReaderWrites(keys, v, q, r, Listed(w));
    steps := first + second;
    BothCallSteps(first, second, q);
    RunsOn(keys, w, first, v, second);
  }

  lemma BothCallSteps(first: seq<Step>, second: seq<Step>, q: nat)
    requires CallSteps(second, q)
    requires first == [LockStep(L.StatAge(q)), LockStep(L.BreakLock(q)), LockStep(L.TryCreate(q)), LockStep(L.Read(q))]
    ensures CallSteps(first + second, q)
  {
  }

  /**
   A waiting call whose request would change the list can commit it beside the one that holds the lock, by steps of its
   own and while the clock stands still, exactly if the lock is stale.
   */
  lemma CommitsBesideIffStale(keys: Keys, w: World, q: nat)
    requires SafeInv(keys, w) && q < |w.held| && w.lock.procs[q].Refused? && w.lock.lock.Some? && FreshId(w, q)
    requires w.held[q].Some? && C.CommitTo(Listed(w), w.held[q].value) != Listed(w)
    ensures (exists steps: seq<Step> :: CommitsBeside(keys, w, q, steps)) <==> L.Stale(w.lock)
  {
    assert Holds(w, q);
    if L.Stale(w.lock) {
      var steps := BreaksAndCommits(keys, w, q);
    } else {
      forall steps: seq<Step> | CallSteps(steps, q) && Run(keys, w, steps).Some?
        ensures Listed(Run(keys, w, steps).value) == Listed(w)
      {
        StaysOut(keys, w, q, steps);
      }
    }
  }

  lemma {:induction false} OtherCallStays(keys: Keys, w: World, p: nat, q: nat, steps: seq<Step>)
    requires CallSteps(steps, q) && Run(keys, w, steps).Some? && p != q && p < |w.lock.procs| && p < |w.held|
    ensures var v := Run(keys, w, steps).value;
            p < |v.lock.procs| && p < |v.held| && v.lock.procs[p] == w.lock.procs[p] && v.held[p] == w.held[p]
    decreases |steps|
  {
    if steps != [] {
      var n := |steps| - 1;
      OtherCallStays(keys, w, p, q, steps[..n]);
      assert steps[n].call.p == q;
    }
  }

  /** The rename of the call that was inside before then undoes that commit, whatever it was. */
  lemma LateRenameUndoes(keys: Keys, w: World, p: nat, q: nat, steps: seq<Step>)
    requires CommitsBeside(keys, w, q, steps) && p != q && IsTimely(w, p)
    requires Enabled(Run(keys, w, steps).value, LockStep(L.Rename(p)))
    ensures Listed(Apply(keys, Run(keys, w, steps).value, LockStep(L.Rename(p)))) ==
            C.CommitTo(Listed(w), w.held[p].value)
  {
    OtherCallStays(keys, w, p, q, steps);
  }

  // ---------- a run in which one does ----------

  type Procs = seq<L.Proc<seq<Action>>>

  const TWO_CALLS := World(L.State([L.Idle, L.Idle], None, L.Holds([]), 0, []), [], [None, None], 0, {C.DUMMY_ID})

  const IDS := {C.DUMMY_ID, "act_1"}

  const OVERRIDE := C.OverrideReq("act_1")

  function VoteOf(keys: Keys, email: string, role: Role): Approval {
    Approval(email, role, keys.sign(Payload("act_1", "npm run build", role, 0), role))
  }

  function FirstVote(keys: Keys): Approval {
    VoteOf(keys, "adm@x", Admin)
  }

  function SecondVote(keys: Keys): Approval {
    VoteOf(keys, "aud@x", Auditor)
  }

  /** The world at this list, nothing waiting. */
  function At(procs: Procs, lock: Option<L.LockFile>, list: seq<Action>, clock: int,
              entered: seq<L.Modify<seq<Action>>>, held: seq<Option<Request>>, used: set<string>): World
  {
    World(L.State(procs, lock, L.Holds(list), clock, entered), [], held, 0, used)
  }

  function OneVote(keys: Keys): Action {
    CREATED.(approvals := [FirstVote(keys)])
  }

  function Approve(app: Approval): Request {
    C.ApproveReq("act_1", app)
  }

  /** What a vote asks for while the action is pending, and what its commit makes of the list. */
  lemma VoteCounts(keys: Keys, a: Action, email: string, role: Role)
    requires a == CREATED.(approvals := a.approvals) && email != "dev@x" && !HasVoted(a, email, role)
    ensures C.ApproveRequest(keys, [a], "act_1", email, role) == Approve(VoteOf(keys, email, role))
    ensures C.CommitTo([a], Approve(VoteOf(keys, email, role))) == [WithApproval(a, VoteOf(keys, email, role))]
  {
    assert IndexOf([a], "act_1") == 0;
  }

  lemma CreatedStored(keys: Keys) returns (steps: seq<Step>, w: World)
    ensures Run(keys, TWO_CALLS, steps) == Some(w)
    ensures w == At([L.Idle, L.Idle], None, [CREATED], 0, w.lock.entered, [None, None], IDS)
  {
    assert C.ExecuteRequests(keys, [], CREATE) == [C.CreateReq(CREATED)];
    assert [] + [C.CreateReq(CREATED)] == [C.CreateReq(CREATED)];
    steps, w := CommitsAlone(keys, TWO_CALLS, [], TWO_CALLS, Handle(CREATE), C.CreateReq(CREATED));
    CommitsCreated();
    assert {C.DUMMY_ID} + {"act_1"} == IDS;
  }

  /** The action is stored, with the first of its two votes. */
  lemma OneVoteStored(keys: Keys) returns (steps: seq<Step>, w: World)
    ensures Run(keys, TWO_CALLS, steps) == Some(w)
    ensures w == At([L.Idle, L.Idle], None, [OneVote(keys)], 0, w.lock.entered, [None, None], IDS)
  {
    var v: World;
    steps, v := CreatedStored(keys);
    VoteCounts(keys, CREATED, "adm@x", Admin);
    assert [] + [FirstVote(keys)] == [FirstVote(keys)] && WithApproval(CREATED, FirstVote(keys)) == OneVote(keys);
    assert [] + [Approve(FirstVote(keys))] == [Approve(FirstVote(keys))];
    steps, w := CommitsAlone(keys, TWO_CALLS, steps, v, Handle(C.SnapshotApprove("act_1", "adm@x", Admin)),
                             Approve(FirstVote(keys)));
  }

  /** Call 1 has taken the lock to record an override and has read the list. */
  function Paused(keys: Keys, clock: int, first: L.Proc<seq<Action>>, lock: Option<L.LockFile>,
                  entered: seq<L.Modify<seq<Action>>>, held: Option<Request>, list: seq<Action>): World
  {
    At([first, L.HasRead(Update(OVERRIDE), [OneVote(keys)])], lock, list, clock, entered, [held, Some(OVERRIDE)], IDS)
  }

  lemma OverridePauses(keys: Keys) returns (steps: seq<Step>, w: World)
    ensures Run(keys, TWO_CALLS, steps) == Some(w)
    ensures w == Paused(keys, 0, L.Idle, Some(L.LockFile(1, 0)), w.lock.entered, None, [OneVote(keys)])
  {
    var v: World;
    steps, v := OneVoteStored(keys);
    assert [] + [OVERRIDE] == [OVERRIDE];
    steps, w := CallPauses(keys, steps, v, Handle(C.AdminOverride("act_1")), OVERRIDE);
  }

  /** Call 1 takes up the request of a handler, takes the lock and reads the list. */
  lemma CallPauses(keys: Keys, steps: seq<Step>, v: World, h: Step, r: Request) returns (more: seq<Step>, u: World)
    requires Run(keys, TWO_CALLS, steps) == Some(v) && h.Handle? && Enabled(v, h) && v.todo == []
    requires |v.held| == |v.lock.procs| == 2 && v.lock.procs[1].Idle? && v.lock.lock == None
    requires Apply(keys, v, h) == v.(todo := [r])
    ensures Run(keys, TWO_CALLS, more) == Some(u)
    ensures u == v.(held := v.held[1 := Some(r)],
                    lock := L.State(v.lock.procs[1 := L.HasRead(Update(r), Listed(v))],
                                    Some(L.LockFile(1, v.lock.clock)),
                                    v.lock.file, v.lock.clock, v.lock.entered + [Update(r)]))
  {
    Extend(keys, TWO_CALLS, steps, v, h);
    var v1 := v.(todo := [r]);
    var v2 := Apply(keys, v1, Start(1, 0));
    Extend(keys, TWO_CALLS, steps + [h], v1, Start(1, 0));
    assert v1.todo[..0] + v1.todo[1..] == [];
    more, u := TakesAndReads(keys, TWO_CALLS, steps + [h] + [Start(1, 0)], v2, 1, Update(r));
    assert v.lock.procs[1 := L.Creating(Update(r), v.lock.clock)][1 := L.HasRead(Update(r), Listed(v))] ==
           v.lock.procs[1 := L.HasRead(Update(r), Listed(v))];
  }

  /** Call 0, with the second vote, is refused; eleven seconds later it finds the lock stale and breaks it. */
  lemma LockIsBroken(keys: Keys) returns (steps: seq<Step>, w: World)
    ensures Run(keys, TWO_CALLS, steps) == Some(w)
    ensures var vote := Approve(SecondVote(keys));
            w == Paused(keys, 11000, L.Creating(Update(vote), 0), None, w.lock.entered, Some(vote), [OneVote(keys)])
  {
    var v: World;
    steps, v := OverridePauses(keys);
    var vote := Approve(SecondVote(keys));
    var h := Handle(C.SnapshotApprove("act_1", "aud@x", Auditor));
    VoteCounts(keys, OneVote(keys), "aud@x", Auditor);
    assert [] + [vote] == [vote];
    var u: World;
    steps, u := TakeUp(keys, TWO_CALLS, steps, v, h, vote);
    steps, w := WaiterBreaks(keys, steps, u, vote, L.LockFile(1, 0));
  }

  lemma WaiterBreaks(keys: Keys, steps: seq<Step>, v: World, r: Request, held: L.LockFile)
    returns (more: seq<Step>, u: World)
    requires Run(keys, TWO_CALLS, steps) == Some(v) && |v.held| == |v.lock.procs| > 0
    requires v.lock.procs[0] == L.Creating(Update(r), 0) && v.lock.lock == Some(held) && held.mtime == 0 == v.lock.clock
    ensures Run(keys, TWO_CALLS, more) == Some(u) && u == v.(lock := v.lock.(lock := None, clock := 11000))
  {
    var v1 := Apply(keys, v, LockStep(L.TryCreate(0)));
    Extend(keys, TWO_CALLS, steps, v, LockStep(L.TryCreate(0)));
    var v2 := Apply(keys, v1, LockStep(L.Tick(11000)));
    Extend(keys, TWO_CALLS, steps + [LockStep(L.TryCreate(0))], v1, LockStep(L.Tick(11000)));
    more, u := StaleLockGoes(keys, steps + [LockStep(L.TryCreate(0))] + [LockStep(L.Tick(11000))], v2, r, held);
    assert v.lock.procs[0 := L.Refused(Update(r), 0)][0 := L.Creating(Update(r), 0)] == v.lock.procs;
  }

  lemma StaleLockGoes(keys: Keys, steps: seq<Step>, v: World, r: Request, held: L.LockFile)
    returns (more: seq<Step>, u: World)
    requires Run(keys, TWO_CALLS, steps) == Some(v) && |v.held| == |v.lock.procs| > 0
    requires v.lock.procs[0] == L.Refused(Update(r), 0) && v.lock.lock == Some(held) && L.Stale(v.lock)
    ensures Run(keys, TWO_CALLS, more) == Some(u)
    ensures u == v.(lock := v.lock.(procs := v.lock.procs[0 := L.Creating(Update(r), 0)], lock := None))
  {
    var v1 := Apply(keys, v, LockStep(L.StatAge(0)));
    Extend(keys, TWO_CALLS, steps, v, LockStep(L.StatAge(0)));
    u := Apply(keys, v1, LockStep(L.BreakLock(0)));
    Extend(keys, TWO_CALLS, steps + [LockStep(L.StatAge(0))], v1, LockStep(L.BreakLock(0)));
    more := steps + [LockStep(L.StatAge(0))] + [LockStep(L.BreakLock(0))];
    assert v.lock.procs[0 := L.Breaking(Update(r), 0)][0 := L.Creating(Update(r), 0)] ==
           v.lock.procs[0 := L.Creating(Update(r), 0)];
  }

  // ---------- the rest of the run ----------

  function BothVotes(keys: Keys): Action {
    CREATED.(approvals := [FirstVote(keys), SecondVote(keys)], status := Approved)
  }

  const COMPLETE := C.CompleteReq("act_1")

  /** The second vote is committed, and the action is approved. */
  lemma BothStored(keys: Keys) returns (steps: seq<Step>, w: World)
    ensures Run(keys, TWO_CALLS, steps) == Some(w)
    ensures w == Paused(keys, 11000, L.Idle, None, w.lock.entered, None, [BothVotes(keys)])
  {
    var v: World;
    steps, v := LockIsBroken(keys);
    VoteCounts(keys, OneVote(keys), "aud@x", Auditor);
    SecondVoteApproves(keys);
    steps, w := CommitsTaken(keys, TWO_CALLS, steps, v, Approve(SecondVote(keys)));
  }

  lemma SecondVoteApproves(keys: Keys)
    ensures WithApproval(OneVote(keys), SecondVote(keys)) == BothVotes(keys)
  {
    assert [FirstVote(keys)] + [SecondVote(keys)] == [FirstVote(keys), SecondVote(keys)];
  }

  /** An execute request finds the action approved and asks to complete it. */
  lemma ApprovedAndExecuted(keys: Keys) returns (steps: seq<Step>, w: World)
    requires Sound(keys)
    ensures Run(keys, TWO_CALLS, steps) == Some(w)
    ensures w == Paused(keys, 11000, L.Creating(Update(COMPLETE), 11000), None, w.lock.entered, Some(COMPLETE),
                        [BothVotes(keys)])
  {
    var v: World;
    steps, v := BothStored(keys);
    ExecutionAsks(keys);
    assert [] + [COMPLETE] == [COMPLETE];
    steps, w := TakeUp(keys, TWO_CALLS, steps, v, Handle(CREATE), COMPLETE);
  }

  lemma ExecutionAsks(keys: Keys)
    requires Sound(keys)
    ensures C.ExecuteRequests(keys, [BothVotes(keys)], CREATE) == [COMPLETE]
  {
    var a := BothVotes(keys);
    assert Attested(keys, a, FirstVote(keys)) && Attested(keys, a, SecondVote(keys));
    assert C.FirstFor([a], a.command, Approved) == Some(a);
  }

  /** The paused call renames what it made of the list it once read. */
  lemma RenamesLate(keys: Keys, steps: seq<Step>, v: World, seen: seq<Action>, r: Request)
    returns (more: seq<Step>, u: World)
    requires Run(keys, TWO_CALLS, steps) == Some(v) && |v.held| == |v.lock.procs| == 2
    requires v.lock.procs[1] == L.HasRead(Update(r), seen) && v.held[1] == Some(r) && !r.CreateReq?
    ensures Run(keys, TWO_CALLS, more) == Some(u)
    ensures u == v.(lock := v.lock.(procs := v.lock.procs[1 := L.Leaving], file := L.Holds(C.CommitTo(seen, r))),
                    held := v.held[1 := None])
  {
    assert Update(r)(seen) == Some(C.CommitTo(seen, r));
    var v1 := Apply(keys, v, LockStep(L.WriteTemp(1)));
    Extend(keys, TWO_CALLS, steps, v, LockStep(L.WriteTemp(1)));
    u := Apply(keys, v1, LockStep(L.Rename(1)));
    Extend(keys, TWO_CALLS, steps + [LockStep(L.WriteTemp(1))], v1, LockStep(L.Rename(1)));
    more := steps + [LockStep(L.WriteTemp(1))] + [LockStep(L.Rename(1))];
    assert v.lock.procs[1 := L.Written(Update(r), C.CommitTo(seen, r))][1 := L.Leaving] == v.lock.procs[1 := L.Leaving];
  }

  /**
   A broken lock breaks consensus: the second vote approves the action and lets it run; the paused override
   then renames the list with one vote back, and the completion is recorded on that.
   */
  lemma CompletedWithOneVote(keys: Keys) returns (steps: seq<Step>, w: World, a: Action)
    requires Sound(keys)
    ensures Initial(TWO_CALLS) && Run(keys, TWO_CALLS, steps) == Some(w) && Listed(w) == [a]
    ensures a.status == Completed && |a.approvals| == 1 && a.requiredVotes == 2
  {
    var v, u: World;
    steps, v := ApprovedAndExecuted(keys);
    steps, u := RenamesLate(keys, steps, v, [OneVote(keys)], OVERRIDE);
    var b := OneVote(keys).(overridden := true);
    assert C.CommitTo([OneVote(keys)], OVERRIDE) == [b];
    steps, w := CommitsTaken(keys, TWO_CALLS, steps, u, COMPLETE);
    a := b.(status := Completed);
    assert C.CommitTo([b], COMPLETE) == [a];
  }
}
