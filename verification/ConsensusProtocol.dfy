/**
 The consensus protocol: approvers, administrators, the expiry worker and
 executors working on one shared list of pending actions.

 Every handler first reads a snapshot of the list and decides on it; what it
 decided to write is kept `inflight` until, at any later moment and in any
 order, a locked update of the store commits it.  A run is any interleaving of
 snapshot steps and commits.
 */
module ConsensusProtocol {
  import opened Wrappers
  import opened PendingActions

  /** The id an approval is sent to when its request failed a check. */
  const DUMMY_ID := "missing_action_id"

  datatype Request =
    | ApproveReq(target: string, approval: Approval)
    | CompleteReq(target: string)
    | ExpireReq(target: string)
    | OverrideReq(target: string)
    | CreateReq(action: Action)

  /** `used` holds every id that an action has been stored under, and the dummy id. */
  datatype State = State(actions: seq<Action>, inflight: seq<Request>, used: set<string>)

  const INITIAL := State([], [], {DUMMY_ID})

  datatype Step =
    | SnapshotApprove(actionId: string, email: string, role: Role)
    | SnapshotExecute(command: string, email: string, gated: bool, locked: bool,
                      syscallSecure: bool, auditRating: Rating, newId: string, now: int)
    | SnapshotExpiry(now: int)
    | AdminOverride(actionId: string)
    | Commit(i: nat)

  // ---------- the handlers, on a snapshot ----------

  predicate CanPersist(list: seq<Action>, actionId: string, email: string, role: Role) {
    var i := IndexOf(list, actionId);
    && actionId != ""
    && i < |list|
    && list[i].status == Pending
    && list[i].initiator != email
    && !HasVoted(list[i], email, role)
    && !(list[i].rating == Dangerous && !list[i].overridden)
  }

  function ApproveRequest(keys: Keys, list: seq<Action>, actionId: string, email: string, role: Role): Request {
    var i := IndexOf(list, actionId);
    var payload := if i < |list| then PayloadFor(list[i], role) else Payload("missing", "noop", role, 0);
    var target := if CanPersist(list, actionId, email, role) then actionId else DUMMY_ID;
    ApproveReq(target, Approval(email, role, keys.sign(payload, role)))
  }

  /** The first action for this command that is in this status. */
  function FirstFor(list: seq<Action>, command: string, status: Status): (r: Option<Action>)
    ensures r.Some? ==> exists i | 0 <= i < |list| ::
              && list[i] == r.value && r.value.command == command && r.value.status == status
              && forall j | 0 <= j < i :: !(list[j].command == command && list[j].status == status)
    ensures r.None? ==> forall i | 0 <= i < |list| :: !(list[i].command == command && list[i].status == status)
  {
    if list == [] then None
    else if list[0].command == command && list[0].status == status then Some(list[0])
    else FirstFor(list[1..], command, status)
  }

  function NewAction(id: string, command: string, email: string, syscallSecure: bool, auditRating: Rating,
                     now: int): Action {
    var dangerous := !syscallSecure || auditRating == Dangerous;
    Action(id, now, now + 900 * 1000, command, email, if dangerous then 3 else 2, Pending,
           if !syscallSecure then Dangerous else auditRating, false, [])
  }

  function ExecuteRequests(keys: Keys, list: seq<Action>, s: Step): seq<Request>
    requires s.SnapshotExecute?
  {
    var approved := FirstFor(list, s.command, Approved);
    if approved.Some? then
      if VerifyActionApprovals(keys, approved.value) then [CompleteReq(approved.value.id)] else []
    else if s.locked || s.command == "" || !(s.gated || !s.syscallSecure) then []
    else if FirstFor(list, s.command, Pending).Some? then []
    else [CreateReq(NewAction(s.newId, s.command, s.email, s.syscallSecure, s.auditRating, s.now))]
  }

  function ExpiryRequests(list: seq<Action>, now: int): seq<Request> {
    if list == [] then []
    else
      (if list[0].status == Pending && list[0].expiresAt < now then [ExpireReq(list[0].id)] else [])
      + ExpiryRequests(list[1..], now)
  }

  // ---------- steps and runs ----------

  function CommitTo(list: seq<Action>, r: Request): seq<Action> {
    match r
    case ApproveReq(id, app) => AddApproval(list, id, app)
    case CompleteReq(id) => SetStatus(list, id, Completed)
    case ExpireReq(id) => SetStatus(list, id, Expired)
    case OverrideReq(id) => SetOverridden(list, id)
    case CreateReq(a) => [a] + list
  }

  function UsedAfter(used: set<string>, r: Request): set<string> {
    if r.CreateReq? then used + {r.action.id} else used
  }

  /** Action ids are drawn fresh: no id is stored twice.  That is the only condition a commit needs. */
  predicate Enabled(s: State, step: Step) {
    step.Commit? ==>
      && step.i < |s.inflight|
      && var r := s.inflight[step.i];
         r.CreateReq? ==> r.action.id !in s.used
  }

  function Apply(keys: Keys, s: State, step: Step): State
    requires Enabled(s, step)
  {
    match step
    case SnapshotApprove(id, email, role) =>
      s.(inflight := s.inflight + [ApproveRequest(keys, s.actions, id, email, role)])
    case SnapshotExecute(_, _, _, _, _, _, _, _) => s.(inflight := s.inflight + ExecuteRequests(keys, s.actions, step))
    case SnapshotExpiry(now) => s.(inflight := s.inflight + ExpiryRequests(s.actions, now))
    case AdminOverride(id) => s.(inflight := s.inflight + [OverrideReq(id)])
    case Commit(i) =>
      State(CommitTo(s.actions, s.inflight[i]), s.inflight[..i] + s.inflight[i + 1..], UsedAfter(s.used, s.inflight[i]))
  }

  /** The state after these steps from `s`; None when one of them is not enabled. */
  function Run(keys: Keys, s: State, steps: seq<Step>): Option<State>
    decreases |steps|
  {
    if steps == [] then Some(s)
    else
      var last := |steps| - 1;
      match Run(keys, s, steps[..last])
      case None => None
      case Some(t) => if Enabled(t, steps[last]) then Some(Apply(keys, t, steps[last])) else None
  }

  // ---------- the invariant ----------

  ghost predicate DistinctVotes(a: Action) {
    forall i, j | 0 <= i < j < |a.approvals| ::
      a.approvals[i].role != a.approvals[j].role && a.approvals[i].approver != a.approvals[j].approver
  }

  ghost predicate GoodAction(keys: Keys, a: Action) {
    && a.id != DUMMY_ID
    && a.requiredVotes == (if a.rating == Dangerous then 3 else 2)
    && DistinctVotes(a)
    && (forall i | 0 <= i < |a.approvals| ::
        a.approvals[i].approver != a.initiator && Attested(keys, a, a.approvals[i]))
    && (a.status == Approved || a.status == Completed ==> |a.approvals| >= a.requiredVotes)
    && (a.rating == Dangerous && a.approvals != [] ==> a.overridden)
  }

  /** What a handler's snapshot checks still guarantee about an action when its write is committed. */
  ghost predicate GoodFor(keys: Keys, r: Request, a: Action) {
    match r
    case ApproveReq(id, app) =>
      a.id == id ==> a.initiator != app.approver && Attested(keys, a, app) && (a.rating == Dangerous ==> a.overridden)
    case CompleteReq(id) => a.id == id ==> |a.approvals| >= a.requiredVotes
    case _ => true
  }

  ghost predicate HasId(list: seq<Action>, id: string) {
    exists i | 0 <= i < |list| :: list[i].id == id
  }

  ghost predicate GoodRequest(keys: Keys, r: Request, list: seq<Action>, used: set<string>) {
    && (forall i | 0 <= i < |list| :: GoodFor(keys, r, list[i]))
    && match r
       case CreateReq(a) =>
         a.status == Pending && a.approvals == [] && a.requiredVotes == (if a.rating == Dangerous then 3 else 2)
       case OverrideReq(_) => true
       case _ => r.target in used
  }

  ghost predicate DistinctIds(list: seq<Action>) {
    forall i, j | 0 <= i < j < |list| :: list[i].id != list[j].id
  }

  ghost predicate Inv(keys: Keys, s: State) {
    && DistinctIds(s.actions) && DUMMY_ID in s.used
    && (forall i | 0 <= i < |s.actions| :: GoodAction(keys, s.actions[i]) && s.actions[i].id in s.used)
    && (forall k | 0 <= k < |s.inflight| :: GoodRequest(keys, s.inflight[k], s.actions, s.used))
  }

  /** How one action may differ between two moments of a run. */
  ghost predicate Evolves(a: Action, b: Action) {
    && a.id == b.id && a.command == b.command && a.createdAt == b.createdAt && a.initiator == b.initiator
    && a.rating == b.rating && a.requiredVotes == b.requiredVotes && a.expiresAt == b.expiresAt
    && a.approvals <= b.approvals
    && (a.overridden ==> b.overridden)
    && (a.status != Pending ==> b.status != Pending)
    && (a.status == Expired || a.status == Completed ==> b.status != Approved)
    && (b.status == Approved ==> a.status == Pending || a.status == Approved)
  }

  ghost predicate StillIn(a: Action, list: seq<Action>) {
    exists j | 0 <= j < |list| :: Evolves(a, list[j])
  }

  /** Every action of the first list is still in the second one, evolved. */
  ghost predicate ListEvolves(list: seq<Action>, list': seq<Action>) {
    forall i | 0 <= i < |list| :: StillIn(list[i], list')
  }

  // ---------- one commit changes at most one action ----------

  lemma HasIdIndex(list: seq<Action>, id: string)
    ensures HasId(list, id) <==> IndexOf(list, id) < |list|
  {
  }

  /** Replacing the action at one index by an evolved one keeps every in-flight request good. */
  lemma RequestKept(keys: Keys, r: Request, list: seq<Action>, used: set<string>, i: nat, b: Action)
    requires GoodRequest(keys, r, list, used) && i < |list| && Evolves(list[i], b)
    ensures GoodRequest(keys, r, list[i := b], used)
  {
    var list' := list[i := b];
    forall k | 0 <= k < |list'| ensures GoodFor(keys, r, list'[k]) {
      assert GoodFor(keys, r, list[k]);
    }
  }

  lemma RequestKeptByCreate(keys: Keys, r: Request, list: seq<Action>, used: set<string>, a: Action)
    requires GoodRequest(keys, r, list, used) && a.id !in used
    ensures GoodRequest(keys, r, [a] + list, used + {a.id})
  {
    var list' := [a] + list;
    forall k | 0 <= k < |list'| ensures GoodFor(keys, r, list'[k]) {
      assert k > 0 ==> list'[k] == list[k - 1] && GoodFor(keys, r, list[k - 1]);
    }
  }

  lemma ReplaceKeepsInv(keys: Keys, s: State, i: nat, b: Action)
    requires Inv(keys, s) && i < |s.actions| && Evolves(s.actions[i], b) && GoodAction(keys, b)
    ensures Inv(keys, s.(actions := s.actions[i := b]))
    ensures ListEvolves(s.actions, s.actions[i := b])
  {
    forall k | 0 <= k < |s.inflight| ensures GoodRequest(keys, s.inflight[k], s.actions[i := b], s.used) {
      RequestKept(keys, s.inflight[k], s.actions, s.used, i, b);
    }
    forall k | 0 <= k < |s.actions| ensures StillIn(s.actions[k], s.actions[i := b]) {
      assert Evolves(s.actions[k], s.actions[i := b][k]);
    }
  }

  lemma ApprovalKeepsGood(keys: Keys, a: Action, app: Approval)
    requires GoodAction(keys, a) && GoodFor(keys, ApproveReq(a.id, app), a) && !HasVoted(a, app.approver, app.role)
    ensures GoodAction(keys, WithApproval(a, app)) && Evolves(a, WithApproval(a, app))
  {
    var b := WithApproval(a, app);
    forall i | 0 <= i < |b.approvals|
      ensures b.approvals[i].approver != b.initiator && Attested(keys, b, b.approvals[i])
    {
      if i < |a.approvals| {
        assert b.approvals[i] == a.approvals[i] && Attested(keys, a, a.approvals[i]);
      }
    }
  }

  // ---------- every step keeps the invariant ----------

  lemma ApproveRequestGood(keys: Keys, s: State, id: string, email: string, role: Role)
    requires Sound(keys) && Inv(keys, s)
    ensures GoodRequest(keys, ApproveRequest(keys, s.actions, id, email, role), s.actions, s.used)
  {
    var r := ApproveRequest(keys, s.actions, id, email, role);
    if CanPersist(s.actions, id, email, role) {
      var i := IndexOf(s.actions, id);
      assert keys.verify(PayloadFor(s.actions[i], role), keys.sign(PayloadFor(s.actions[i], role), role), role);
      forall k | 0 <= k < |s.actions| ensures GoodFor(keys, r, s.actions[k]) {
        assert s.actions[k].id == id ==> k == i;
      }
    }
  }

  lemma ExecuteRequestsGood(keys: Keys, s: State, step: Step)
    requires Inv(keys, s) && step.SnapshotExecute?
    ensures forall k | 0 <= k < |ExecuteRequests(keys, s.actions, step)| ::
              GoodRequest(keys, ExecuteRequests(keys, s.actions, step)[k], s.actions, s.used)
  {
    var approved := FirstFor(s.actions, step.command, Approved);
    if approved.Some? {
      var i :| 0 <= i < |s.actions| && s.actions[i] == approved.value;
      forall k | 0 <= k < |s.actions| && s.actions[k].id == approved.value.id ensures k == i {
      }
    }
  }

  lemma {:induction false} ExpiryRequestsGood(keys: Keys, list: seq<Action>, used: set<string>, now: int)
    requires forall i | 0 <= i < |list| :: list[i].id in used
    ensures forall k | 0 <= k < |ExpiryRequests(list, now)| ::
              ExpiryRequests(list, now)[k].ExpireReq? && ExpiryRequests(list, now)[k].target in used
  {
    if list != [] {
      ExpiryRequestsGood(keys, list[1..], used, now);
    }
  }

  lemma DropKeepsInv(keys: Keys, s: State, i: nat)
    requires Inv(keys, s) && i < |s.inflight|
    ensures Inv(keys, s.(inflight := s.inflight[..i] + s.inflight[i + 1..]))
  {
    var rest := s.inflight[..i] + s.inflight[i + 1..];
    forall k | 0 <= k < |rest| ensures GoodRequest(keys, rest[k], s.actions, s.used) {
      assert rest[k] == s.inflight[if k < i then k else k + 1];
    }
  }

  /** Committing any request that is good for the list keeps the invariant. */
  lemma CommitKeepsInv(keys: Keys, s: State, r: Request)
    requires Inv(keys, s) && GoodRequest(keys, r, s.actions, s.used)
    requires r.CreateReq? ==> r.action.id !in s.used
    ensures Inv(keys, s.(actions := CommitTo(s.actions, r), used := UsedAfter(s.used, r)))
    ensures ListEvolves(s.actions, CommitTo(s.actions, r))
  {
    match r
    case CreateReq(a) => CreateKeepsInv(keys, s, a);
    case ApproveReq(id, app) => ApproveKeepsInv(keys, s, id, app);
    case CompleteReq(id) => CompleteKeepsInv(keys, s, id);
    case ExpireReq(id) => ExpireKeepsInv(keys, s, id);
    case OverrideReq(id) => OverrideKeepsInv(keys, s, id);
  }

  lemma CompleteKeepsInv(keys: Keys, s: State, id: string)
    requires Inv(keys, s) && GoodRequest(keys, CompleteReq(id), s.actions, s.used)
    ensures Inv(keys, s.(actions := SetStatus(s.actions, id, Completed)))
    ensures ListEvolves(s.actions, SetStatus(s.actions, id, Completed))
  {
    var k := IndexOf(s.actions, id);
    if k < |s.actions| {
      assert GoodFor(keys, CompleteReq(id), s.actions[k]);
      ReplaceStatus(keys, s, k, Completed);
    } else {
      SameListEvolves(s.actions);
    }
  }

  lemma ExpireKeepsInv(keys: Keys, s: State, id: string)
    requires Inv(keys, s)
    ensures Inv(keys, s.(actions := SetStatus(s.actions, id, Expired)))
    ensures ListEvolves(s.actions, SetStatus(s.actions, id, Expired))
  {
    var k := IndexOf(s.actions, id);
    if k < |s.actions| {
      ReplaceStatus(keys, s, k, Expired);
    } else {
      SameListEvolves(s.actions);
    }
  }

  lemma ApproveKeepsInv(keys: Keys, s: State, id: string, app: Approval)
    requires Inv(keys, s) && GoodRequest(keys, ApproveReq(id, app), s.actions, s.used)
    ensures Inv(keys, s.(actions := AddApproval(s.actions, id, app)))
    ensures ListEvolves(s.actions, AddApproval(s.actions, id, app))
  {
    var k := IndexOf(s.actions, id);
    if k < |s.actions| && !HasVoted(s.actions[k], app.approver, app.role) {
      assert GoodFor(keys, ApproveReq(id, app), s.actions[k]);
      ApprovalKeepsGood(keys, s.actions[k], app);
      ReplaceKeepsInv(keys, s, k, WithApproval(s.actions[k], app));
    } else {
      SameListEvolves(s.actions);
    }
  }

  lemma ReplaceStatus(keys: Keys, s: State, k: nat, status: Status)
    requires Inv(keys, s) && k < |s.actions|
    requires status == Expired || (status == Completed && |s.actions[k].approvals| >= s.actions[k].requiredVotes)
    ensures Inv(keys, s.(actions := s.actions[k := s.actions[k].(status := status)]))
    ensures ListEvolves(s.actions, s.actions[k := s.actions[k].(status := status)])
  {
    var a := s.actions[k];
    var b := a.(status := status);
    forall i | 0 <= i < |b.approvals| ensures Attested(keys, b, b.approvals[i]) {
      assert Attested(keys, a, a.approvals[i]);
    }
    ReplaceKeepsInv(keys, s, k, b);
  }

  lemma CreateKeepsInv(keys: Keys, s: State, a: Action)
    requires Inv(keys, s) && a.id !in s.used
    requires a.status == Pending && a.approvals == [] && a.requiredVotes == (if a.rating == Dangerous then 3 else 2)
    ensures Inv(keys, s.(actions := [a] + s.actions, used := s.used + {a.id}))
    ensures ListEvolves(s.actions, [a] + s.actions)
  {
    CreateKeepsActions(keys, s.actions, s.used, a);
    forall k | 0 <= k < |s.inflight| ensures GoodRequest(keys, s.inflight[k], [a] + s.actions, s.used + {a.id}) {
      RequestKeptByCreate(keys, s.inflight[k], s.actions, s.used, a);
    }
    forall k | 0 <= k < |s.actions| ensures StillIn(s.actions[k], [a] + s.actions) {
      assert Evolves(s.actions[k], ([a] + s.actions)[k + 1]);
    }
  }

  lemma CreateKeepsActions(keys: Keys, list: seq<Action>, used: set<string>, a: Action)
    requires DistinctIds(list) && forall i | 0 <= i < |list| :: GoodAction(keys, list[i]) && list[i].id in used
    requires GoodAction(keys, a) && a.id !in used
    ensures DistinctIds([a] + list)
    ensures forall i | 0 <= i < |[a] + list| :: GoodAction(keys, ([a] + list)[i]) && ([a] + list)[i].id in used + {a.id}
  {
    var list' := [a] + list;
    assert forall i | 0 < i < |list'| :: list'[i] == list[i - 1];
  }

  lemma SameListEvolves(list: seq<Action>)
    ensures ListEvolves(list, list)
  {
    forall k | 0 <= k < |list| ensures StillIn(list[k], list) {
      assert Evolves(list[k], list[k]);
    }
  }

  lemma OverrideKeepsInv(keys: Keys, s: State, id: string)
    requires Inv(keys, s)
    ensures Inv(keys, s.(actions := SetOverridden(s.actions, id)))
    ensures ListEvolves(s.actions, SetOverridden(s.actions, id))
  {
    SameListEvolves(s.actions);
    var i := IndexOf(s.actions, id);
    if i < |s.actions| {
      var a, b := s.actions[i], s.actions[i].(overridden := true);
      forall k | 0 <= k < |b.approvals| ensures Attested(keys, b, b.approvals[k]) {
        assert Attested(keys, a, a.approvals[k]);
      }
      ReplaceKeepsInv(keys, s, i, b);
    }
  }

  lemma MoreRequests(keys: Keys, s: State, rs: seq<Request>)
    requires Inv(keys, s) && forall k | 0 <= k < |rs| :: GoodRequest(keys, rs[k], s.actions, s.used)
    ensures Inv(keys, s.(inflight := s.inflight + rs))
  {
  }

  lemma StepKeepsInv(keys: Keys, s: State, step: Step)
    requires Sound(keys) && Inv(keys, s) && Enabled(s, step)
    ensures Inv(keys, Apply(keys, s, step))
    ensures ListEvolves(s.actions, Apply(keys, s, step).actions)
  {
    match step
    case SnapshotApprove(id, email, role) =>
      ApproveRequestGood(keys, s, id, email, role);
      RequestsKeepInv(keys, s, step, [ApproveRequest(keys, s.actions, id, email, role)]);
    case SnapshotExecute(_, _, _, _, _, _, _, _) =>
      ExecuteRequestsGood(keys, s, step);
      RequestsKeepInv(keys, s, step, ExecuteRequests(keys, s.actions, step));
    case SnapshotExpiry(now) =>
      ExpiryRequestsGood(keys, s.actions, s.used, now);
      RequestsKeepInv(keys, s, step, ExpiryRequests(s.actions, now));
    case AdminOverride(id) => RequestsKeepInv(keys, s, step, [OverrideReq(id)]);
    case Commit(i) => CommitStepKeepsInv(keys, s, i);
  }

  /** A handler's step only adds requests. */
  lemma RequestsKeepInv(keys: Keys, s: State, step: Step, rs: seq<Request>)
    requires Inv(keys, s) && Enabled(s, step) && Apply(keys, s, step) == s.(inflight := s.inflight + rs)
    requires forall k | 0 <= k < |rs| :: GoodRequest(keys, rs[k], s.actions, s.used)
    ensures Inv(keys, Apply(keys, s, step)) && ListEvolves(s.actions, Apply(keys, s, step).actions)
  {
    MoreRequests(keys, s, rs);
    SameListEvolves(s.actions);
  }

  lemma CommitStepKeepsInv(keys: Keys, s: State, i: nat)
    requires Inv(keys, s) && Enabled(s, Commit(i))
    ensures Inv(keys, Apply(keys, s, Commit(i)))
    ensures ListEvolves(s.actions, Apply(keys, s, Commit(i)).actions)
  {
    DropKeepsInv(keys, s, i);
    CommitKeepsInv(keys, s.(inflight := s.inflight[..i] + s.inflight[i + 1..]), s.inflight[i]);
  }

  lemma {:induction false} RunKeepsInv(keys: Keys, s: State, steps: seq<Step>)
    requires Sound(keys) && Inv(keys, s) && Run(keys, s, steps).Some?
    ensures Inv(keys, Run(keys, s, steps).value)
    decreases |steps|
  {
    if steps != [] {
      RunKeepsInv(keys, s, steps[..|steps| - 1]);
      StepKeepsInv(keys, Run(keys, s, steps[..|steps| - 1]).value, steps[|steps| - 1]);
    }
  }

  lemma GoodInRun(keys: Keys, steps: seq<Step>, a: Action)
    requires Sound(keys) && Run(keys, INITIAL, steps).Some? && a in Run(keys, INITIAL, steps).value.actions
    ensures GoodAction(keys, a)
  {
    RunKeepsInv(keys, INITIAL, steps);
    var list := Run(keys, INITIAL, steps).value.actions;
    var i :| 0 <= i < |list| && list[i] == a;
    assert GoodAction(keys, list[i]);
  }

  // ---------- main results ----------

  /**
   In every interleaving, an approved or completed action carries at least its required
   number of approvals, by different roles and different people, none of them the initiator.
   */
  lemma ConsensusSafety(keys: Keys, steps: seq<Step>, a: Action)
    requires Sound(keys) && Run(keys, INITIAL, steps).Some? && a in Run(keys, INITIAL, steps).value.actions
    requires a.status == Approved || a.status == Completed
    ensures |a.approvals| >= a.requiredVotes >= 2
    ensures DistinctVotes(a)
    ensures forall i | 0 <= i < |a.approvals| :: a.approvals[i].approver != a.initiator
  {
    GoodInRun(keys, steps, a);
  }

  ghost function RolesOf(approvals: seq<Approval>): set<Role> {
    set i | 0 <= i < |approvals| :: approvals[i].role
  }

  lemma {:induction false} DistinctRolesCount(approvals: seq<Approval>)
    requires forall i, j | 0 <= i < j < |approvals| :: approvals[i].role != approvals[j].role
    ensures |RolesOf(approvals)| == |approvals|
  {
    if approvals != [] {
      var n := |approvals| - 1;
      DistinctRolesCount(approvals[..n]);
      assert RolesOf(approvals) == RolesOf(approvals[..n]) + {approvals[n].role};
      assert approvals[n].role !in RolesOf(approvals[..n]);
    }
  }

  lemma ThreeRoles(roles: set<Role>)
    ensures roles <= {Admin, Developer, Auditor}
  {
    forall r | r in roles ensures r in {Admin, Developer, Auditor} {
      assert r.Admin? || r.Developer? || r.Auditor?;
    }
  }

  lemma SubsetCount<T>(s: set<T>, t: set<T>)
    requires s <= t
    ensures |s| <= |t|
    ensures |s| == |t| ==> s == t
  {
    assert t == s + (t - s);
  }

  /** What the invariant says of an approved or completed action. */
  lemma GoodIsSafe(keys: Keys, a: Action)
    requires GoodAction(keys, a) && (a.status == Approved || a.status == Completed)
    ensures |a.approvals| >= a.requiredVotes >= 2 && VerifyActionApprovals(keys, a)
    ensures a.rating == Dangerous ==> |a.approvals| == 3 && RolesOf(a.approvals) == {Admin, Developer, Auditor}
  {
    if a.rating == Dangerous {
      DistinctRolesCount(a.approvals);
      ThreeRoles(RolesOf(a.approvals));
      SubsetCount(RolesOf(a.approvals), {Admin, Developer, Auditor});
    }
  }

  /** A dangerous action that was approved or completed has exactly one approval of each of the three roles. */
  lemma DangerousNeedsAllRoles(keys: Keys, steps: seq<Step>, a: Action)
    requires Sound(keys) && Run(keys, INITIAL, steps).Some? && a in Run(keys, INITIAL, steps).value.actions
    requires a.rating == Dangerous && (a.status == Approved || a.status == Completed)
    ensures |a.approvals| == 3 && RolesOf(a.approvals) == {Admin, Developer, Auditor}
  {
    GoodInRun(keys, steps, a);
    GoodIsSafe(keys, a);
  }

  /** ... and at some earlier moment of the run it was already overridden while nobody had approved it. */
  lemma {:induction false} OverriddenBeforeFirstApproval(keys: Keys, steps: seq<Step>, a: Action)
    returns (k: nat, before: Action)
    requires Sound(keys) && Run(keys, INITIAL, steps).Some? && a in Run(keys, INITIAL, steps).value.actions
    requires a.rating == Dangerous && a.approvals != []
    ensures k < |steps| && Run(keys, INITIAL, steps[..k]).Some?
    ensures before in Run(keys, INITIAL, steps[..k]).value.actions
    ensures before.id == a.id && before.overridden && before.approvals == []
    decreases |steps|
  {
    var n := |steps| - 1;
    var s := Run(keys, INITIAL, steps[..n]).value;
    RunKeepsInv(keys, INITIAL, steps[..n]);
    RunKeepsInv(keys, INITIAL, steps);
    var earlier := StepSource(keys, s, steps[n], a);
    if earlier.approvals != [] {
      k, before := OverriddenBeforeFirstApproval(keys, steps[..n], earlier);
      assert steps[..n][..k] == steps[..k];
    } else {
      k, before := n, earlier;
    }
  }

  /** An action with approvals stood in the list one step earlier; if it had none then, it was overridden. */
  lemma StepSource(keys: Keys, s: State, step: Step, a: Action) returns (b: Action)
    requires Inv(keys, s) && Enabled(s, step) && a in Apply(keys, s, step).actions && a.approvals != []
    ensures b in s.actions && b.id == a.id && b.rating == a.rating
    ensures b.approvals == [] && a.rating == Dangerous ==> b.overridden
  {
    if step.Commit? {
      b := CommitSource(keys, s.actions, s.used, s.inflight[step.i], a);
    } else {
      b := a;
      assert exists i :: 0 <= i < |s.actions| && s.actions[i] == a && GoodAction(keys, s.actions[i]);
    }
  }

  lemma CommitSource(keys: Keys, list: seq<Action>, used: set<string>, r: Request, a: Action) returns (b: Action)
    requires (forall i | 0 <= i < |list| :: GoodAction(keys, list[i])) && GoodRequest(keys, r, list, used)
    requires a in CommitTo(list, r) && a.approvals != []
    ensures b in list && b.id == a.id && b.rating == a.rating
    ensures b.approvals == [] && a.rating == Dangerous ==> b.overridden
  {
    var after := CommitTo(list, r);
    var j :| 0 <= j < |after| && after[j] == a;
    if r.CreateReq? {
      b := list[j - 1];
      assert GoodAction(keys, b);
    } else {
      b := list[j];
      assert GoodAction(keys, b) && GoodFor(keys, r, b);
    }
  }

  /** The approvals of any action of any run pass the cryptographic check made before execution. */
  lemma ApprovalsAlwaysVerify(keys: Keys, steps: seq<Step>, a: Action)
    requires Sound(keys) && Run(keys, INITIAL, steps).Some? && a in Run(keys, INITIAL, steps).value.actions
    ensures VerifyActionApprovals(keys, a) <==> a.approvals != []
  {
    GoodInRun(keys, steps, a);
  }

  lemma EvolvesTransitive(a: Action, b: Action, c: Action)
    requires Evolves(a, b) && Evolves(b, c)
    ensures Evolves(a, c)
  {
  }

  /**
   Between any two moments of a run an action keeps its id, command, creation time, initiator, rating and
   vote count; it only gains approvals; its status never returns to pending and becomes approved only from pending.
   */
  lemma {:induction false} ActionsEvolve(keys: Keys, s: State, steps: seq<Step>, i: nat) returns (j: nat)
    requires Sound(keys) && Inv(keys, s) && Run(keys, s, steps).Some? && i < |s.actions|
    ensures j < |Run(keys, s, steps).value.actions|
    ensures Evolves(s.actions[i], Run(keys, s, steps).value.actions[j])
    decreases |steps|
  {
    if steps == [] {
      j := i;
    } else {
      var n := |steps| - 1;
      var m := Run(keys, s, steps[..n]).value;
      RunKeepsInv(keys, s, steps[..n]);
      var k := ActionsEvolve(keys, s, steps[..n], i);
      StepKeepsInv(keys, m, steps[n]);
      var t := Apply(keys, m, steps[n]);
      assert StillIn(m.actions[k], t.actions);
      j :| 0 <= j < |t.actions| && Evolves(m.actions[k], t.actions[j]);
      EvolvesTransitive(s.actions[i], m.actions[k], t.actions[j]);
    }
  }

  /** The checks an approval request can fail, each stated on its own. */
  ghost predicate FailsSomeCheck(list: seq<Action>, id: string, email: string, role: Role) {
    || id == ""
    || !HasId(list, id)
    || exists k | 0 <= k < |list| && list[k].id == id ::
         || list[k].status != Pending
         || list[k].initiator == email
         || (list[k].rating == Dangerous && !list[k].overridden)
         || exists j | 0 <= j < |list[k].approvals| ::
              list[k].approvals[j].role == role || list[k].approvals[j].approver == email
  }

  /** An approval request that failed any check on its snapshot changes nothing, whenever it is committed. */
  lemma RefusedApprovalIsNoOp(keys: Keys, s: State, steps: seq<Step>, id: string, email: string, role: Role)
    requires Sound(keys) && Inv(keys, s) && FailsSomeCheck(s.actions, id, email, role) && Run(keys, s, steps).Some?
    ensures var later := Run(keys, s, steps).value.actions;
            CommitTo(later, ApproveRequest(keys, s.actions, id, email, role)) == later
  {
    RunKeepsInv(keys, s, steps);
    HasIdIndex(s.actions, id);
    var i := IndexOf(s.actions, id);
    assert forall k | 0 <= k < |s.actions| && s.actions[k].id == id :: k == i;
  }

  /**
   One that passed them all, committed before anything else changes, adds exactly this vote to exactly this
   action, and approves it exactly when the vote completes the required number.
   */
  lemma PassedApprovalIsRecorded(keys: Keys, s: State, id: string, email: string, role: Role)
    requires Inv(keys, s) && !FailsSomeCheck(s.actions, id, email, role)
    ensures var i := IndexOf(s.actions, id);
            var after := CommitTo(s.actions, ApproveRequest(keys, s.actions, id, email, role));
            && i < |s.actions| == |after|
            && (forall k | 0 <= k < |after| && k != i :: after[k] == s.actions[k])
            && |after[i].approvals| == |s.actions[i].approvals| + 1
            && after[i].approvals[..|s.actions[i].approvals|] == s.actions[i].approvals
            && after[i].approvals[|s.actions[i].approvals|].approver == email
            && after[i].approvals[|s.actions[i].approvals|].role == role
            && after[i].status == (if |after[i].approvals| >= after[i].requiredVotes then Approved else Pending)
            && Evolves(s.actions[i], after[i])
  {
    HasIdIndex(s.actions, id);
    var i := IndexOf(s.actions, id);
    assert CanPersist(s.actions, id, email, role);
  }

  /** With distinct ids each update reaches every action that carries its id, whichever comes first, and no other. */
  lemma UpdatesTouchTarget(list: seq<Action>, id: string, status: Status, app: Approval)
    requires DistinctIds(list)
    ensures |SetStatus(list, id, status)| == |SetOverridden(list, id)| == |AddApproval(list, id, app)| == |list|
    ensures forall i | 0 <= i < |list| ::
              SetStatus(list, id, status)[i] == if list[i].id == id then list[i].(status := status) else list[i]
    ensures forall i | 0 <= i < |list| ::
              SetOverridden(list, id)[i] == if list[i].id == id then list[i].(overridden := true) else list[i]
    ensures forall i | 0 <= i < |list| :: AddApproval(list, id, app)[i] ==
              if list[i].id != id || HasVoted(list[i], app.approver, app.role) then list[i]
              else list[i].(approvals := list[i].approvals + [app],
                            status := if |list[i].approvals| + 1 >= list[i].requiredVotes && list[i].status == Pending
                                      then Approved else list[i].status)
  {
    HasIdIndex(list, id);
    var k := IndexOf(list, id);
    forall i | 0 <= i < |list| && list[i].id == id ensures i == k {
    }
  }

  /** The expiry worker asks for exactly the pending actions whose time is over. */
  lemma {:induction false} ExpiryRequestsMean(list: seq<Action>, now: int, id: string)
    ensures ExpireReq(id) in ExpiryRequests(list, now) <==>
            exists k | 0 <= k < |list| :: list[k].id == id && list[k].status == Pending && list[k].expiresAt < now
  {
    if list != [] {
      ExpiryRequestsMean(list[1..], now, id);
      assert forall k | 1 <= k < |list| :: list[k] == list[1..][k - 1];
    }
  }

  /**
   An execution asks to complete an approved action where there is one for its command; otherwise a gated or
   insecure command that nobody has queued yet becomes a new action, dangerous exactly when its audit or its
   system calls say so, and then with three votes.
   */
  lemma ExecutionOutcome(keys: Keys, steps: seq<Step>, e: Step)
    requires Sound(keys) && Run(keys, INITIAL, steps).Some? && e.SnapshotExecute?
    ensures var list := Run(keys, INITIAL, steps).value.actions;
            var rs := ExecuteRequests(keys, list, e);
            if exists a :: a in list && a.command == e.command && a.status == Approved then
              |rs| == 1 && rs[0].CompleteReq? &&
              exists a :: a in list && a.command == e.command && a.status == Approved && a.id == rs[0].target
            else if !e.locked && e.command != "" && (e.gated || !e.syscallSecure) &&
                    !exists a :: a in list && a.command == e.command && a.status == Pending then
              |rs| == 1 && rs[0].CreateReq? && rs[0].action.command == e.command && rs[0].action.initiator == e.email &&
              rs[0].action.id == e.newId && rs[0].action.createdAt == e.now &&
              (rs[0].action.rating == Dangerous <==> !e.syscallSecure || e.auditRating == Dangerous) &&
              (rs[0].action.requiredVotes == 3 <==> rs[0].action.rating == Dangerous)
            else rs == []
  {
    var list := Run(keys, INITIAL, steps).value.actions;
    var approved := FirstFor(list, e.command, Approved);
    if approved.Some? {
      ApprovalsAlwaysVerify(keys, steps, approved.value);
      ConsensusSafety(keys, steps, approved.value);
    }
  }

  /**
   What the lock protects is only the vote itself: a committed approval changes the list exactly when its
   target is still there and neither the role nor the person has voted, whatever the status has become.
   */
  lemma CommittedApprovalEffect(list: seq<Action>, id: string, app: Approval)
    ensures AddApproval(list, id, app) != list <==>
            IndexOf(list, id) < |list| && !HasVoted(list[IndexOf(list, id)], app.approver, app.role)
  {
    var i := IndexOf(list, id);
    if i < |list| && !HasVoted(list[i], app.approver, app.role) {
      assert |AddApproval(list, id, app)[i].approvals| == |list[i].approvals| + 1;
    }
  }

  /** A request that passed its checks on `list` is one for its own action. */
  lemma PassedRequest(keys: Keys, list: seq<Action>, id: string, email: string, role: Role)
    requires DistinctIds(list) && !FailsSomeCheck(list, id, email, role)
    ensures ApproveRequest(keys, list, id, email, role).target == id
    ensures ApproveRequest(keys, list, id, email, role).approval.approver == email
    ensures ApproveRequest(keys, list, id, email, role).approval.role == role
  {
    HasIdIndex(list, id);
    assert CanPersist(list, id, email, role);
  }

  ghost predicate HasVoteOf(a: Action, email: string, role: Role) {
    exists j | 0 <= j < |a.approvals| :: a.approvals[j].role == role || a.approvals[j].approver == email
  }

  /**
   Exactly when a vote comes late: a request that passed all its checks on its snapshot gives
   an approval to an action that is no longer pending if and only if, when it is committed, its
   action has left the pending state and neither the role nor the person has voted on it since.
   */
  lemma LateApprovalIff(keys: Keys, s: State, steps: seq<Step>, id: string, email: string, role: Role)
    requires Sound(keys) && Inv(keys, s) && !FailsSomeCheck(s.actions, id, email, role) && Run(keys, s, steps).Some?
    ensures var later := Run(keys, s, steps).value.actions;
            var after := CommitTo(later, ApproveRequest(keys, s.actions, id, email, role));
            && |after| == |later|
            && ((exists i | 0 <= i < |later| ::
                 later[i].status != Pending && after[i].approvals != later[i].approvals) <==>
                exists i | 0 <= i < |later| ::
                  later[i].id == id && later[i].status != Pending && !HasVoteOf(later[i], email, role))
  {
    RunKeepsInv(keys, s, steps);
    PassedRequest(keys, s.actions, id, email, role);
    UpdatesTouchTarget(Run(keys, s, steps).value.actions, id, Expired,
                       ApproveRequest(keys, s.actions, id, email, role).approval);
  }

  const QUEUED := NewAction("act_1", "npm run build", "dev@x", true, Safe, 0)

  const QUEUE := SnapshotExecute("npm run build", "dev@x", true, false, true, Safe, "act_1", 0)

  /** An action is queued, and an approver has passed the checks but not yet written. */
  lemma ApproverAboutToWrite(keys: Keys) returns (steps: seq<Step>, app: Approval)
    ensures Run(keys, INITIAL, steps) == Some(State([QUEUED], [ApproveReq("act_1", app)], {DUMMY_ID, "act_1"}))
  {
    app := Approval("adm@x", Admin, keys.sign(PayloadFor(QUEUED, Admin), Admin));
    var s1 := State([], [CreateReq(QUEUED)], {DUMMY_ID});
    var s2 := State([QUEUED], [], {DUMMY_ID, "act_1"});
    assert Apply(keys, INITIAL, QUEUE) == s1;
    assert Apply(keys, s1, Commit(0)) == s2;
    assert Apply(keys, s2, SnapshotApprove("act_1", "adm@x", Admin)) == s2.(inflight := [ApproveReq("act_1", app)]);
    steps := [];
    Extend(keys, steps, QUEUE, INITIAL);
    steps := steps + [QUEUE];
    Extend(keys, steps, Commit(0), s1);
    steps := steps + [Commit(0)];
    Extend(keys, steps, SnapshotApprove("act_1", "adm@x", Admin), s2);
    steps := steps + [SnapshotApprove("act_1", "adm@x", Admin)];
  }

  /**
   "Only pending actions gain approvals" does not hold: here the expiry worker commits between an
   approver's check and its write, and the expired action is approved by one person.
   */
  lemma ExpiredActionCanGainApproval(keys: Keys) returns (steps: seq<Step>)
    ensures Run(keys, INITIAL, steps).Some?
    ensures var list := Run(keys, INITIAL, steps).value.actions;
            |list| == 1 && list[0].status == Expired && |list[0].approvals| == 1
  {
    var app: Approval;
    steps, app := ApproverAboutToWrite(keys);
    var s1, s2, s3, s4 := ExpiryComesBetween(keys, app);
    Extend(keys, steps, SnapshotExpiry(1000000), s1);
    steps := steps + [SnapshotExpiry(1000000)];
    Extend(keys, steps, Commit(1), s2);
    steps := steps + [Commit(1)];
    Extend(keys, steps, Commit(0), s3);
    steps := steps + [Commit(0)];
  }

  /** The sweep asks, its request is committed, and then the approval. */
  lemma ExpiryComesBetween(keys: Keys, app: Approval) returns (s1: State, s2: State, s3: State, s4: State)
    ensures s1 == State([QUEUED], [ApproveReq("act_1", app)], {DUMMY_ID, "act_1"})
    ensures s2 == Apply(keys, s1, SnapshotExpiry(1000000))
    ensures Enabled(s2, Commit(1)) && s3 == Apply(keys, s2, Commit(1))
    ensures Enabled(s3, Commit(0)) && s4 == Apply(keys, s3, Commit(0))
    ensures |s4.actions| == 1 && s4.actions[0].status == Expired && |s4.actions[0].approvals| == 1
  {
    var expired := QUEUED.(status := Expired);
    s1 := State([QUEUED], [ApproveReq("act_1", app)], {DUMMY_ID, "act_1"});
    s2 := s1.(inflight := [ApproveReq("act_1", app), ExpireReq("act_1")]);
    s3 := State([expired], [ApproveReq("act_1", app)], {DUMMY_ID, "act_1"});
    s4 := State([expired.(approvals := [app])], [], {DUMMY_ID, "act_1"});
    assert ExpiryRequests([QUEUED], 1000000) == [ExpireReq("act_1")] + ExpiryRequests([], 1000000);
    assert Apply(keys, s1, SnapshotExpiry(1000000)) == s2;
    assert Apply(keys, s2, Commit(1)) == s3;
    assert expired.approvals + [app] == [app];
    assert Apply(keys, s3, Commit(0)) == s4;
  }

  lemma Extend(keys: Keys, steps: seq<Step>, step: Step, s: State)
    requires Run(keys, INITIAL, steps) == Some(s) && Enabled(s, step)
    ensures Run(keys, INITIAL, steps + [step]) == Some(Apply(keys, s, step))
  {
    assert (steps + [step])[..|steps|] == steps;
  }
}
