/**
 Which executions a consensus grants.

 Two handlers run an approved command: the execute endpoint, when it finds the
 command approved on its snapshot, and the approve handler, when the action is
 approved after its own commit.
 */
module ConsensusGrants {
  import opened Wrappers
  import opened PendingActions
  import opened ConsensusProtocol

  /** What the auditor of command lines says of a command. */
  type Auditor = string -> bool

  /**
   The action whose command a step lets run: the execute endpoint runs an approved command, and the approve handler
   runs it when the status after its own commit is approved.
   */
  function GrantedBy(keys: Keys, secure: Auditor, s: State, step: Step): Option<Action>
    requires Enabled(s, step)
  {
    match step
    case SnapshotExecute(command, _, _, locked, _, _, _, _) =>
      var approved := FirstFor(s.actions, command, Approved);
      if approved.Some? && VerifyActionApprovals(keys, approved.value) && !locked && command != "" then approved
      else None
    case Commit(i) =>
      if s.inflight[i].ApproveReq? then GrantedByApproval(keys, secure, s.actions, s.inflight[i]) else None
    case _ => None
  }

  function GrantedByApproval(keys: Keys, secure: Auditor, list: seq<Action>, r: Request): Option<Action>
    requires r.ApproveReq?
  {
    var i := IndexOf(list, r.target);
    if i == |list| || HasVoted(list[i], r.approval.approver, r.approval.role) then None
    else
      var b := WithApproval(list[i], r.approval);
      if b.status == Approved && VerifyActionApprovals(keys, b) && secure(b.command) then Some(b) else None
  }

  /** Every execution that a run grants has its quorum behind it. */
  lemma EveryGrantHasQuorum(keys: Keys, secure: Auditor, steps: seq<Step>, s: State, step: Step, a: Action)
    requires Sound(keys) && Run(keys, INITIAL, steps) == Some(s) && Enabled(s, step)
    requires GrantedBy(keys, secure, s, step) == Some(a)
    ensures |a.approvals| >= a.requiredVotes >= 2 && DistinctVotes(a) && VerifyActionApprovals(keys, a)
    ensures forall i | 0 <= i < |a.approvals| :: a.approvals[i].approver != a.initiator
    ensures a.rating == Dangerous ==> a.overridden && RolesOf(a.approvals) == {Admin, Developer, Auditor}
  {
    if step.Commit? {
      Extend(keys, steps, step, s);
      assert a == Apply(keys, s, step).actions[IndexOf(s.actions, s.inflight[step.i].target)];
      GrantIsGood(keys, steps + [step], a);
    } else {
      GrantIsGood(keys, steps, a);
    }
  }

  lemma GrantIsGood(keys: Keys, steps: seq<Step>, a: Action)
    requires Sound(keys) && Run(keys, INITIAL, steps).Some? && a in Run(keys, INITIAL, steps).value.actions
    requires a.status == Approved
    ensures |a.approvals| >= a.requiredVotes >= 2 && DistinctVotes(a) && VerifyActionApprovals(keys, a)
    ensures forall i | 0 <= i < |a.approvals| :: a.approvals[i].approver != a.initiator
    ensures a.rating == Dangerous ==> a.overridden && RolesOf(a.approvals) == {Admin, Developer, Auditor}
  {
    ConsensusSafety(keys, steps, a);
    ApprovalsAlwaysVerify(keys, steps, a);
    GoodInRun(keys, steps, a);
    if a.rating == Dangerous {
      DangerousNeedsAllRoles(keys, steps, a);
    }
  }

  /** A commit that ends the approved state of the action with this id. */
  predicate Withdraws(s: State, step: Step, id: string)
    requires Enabled(s, step)
  {
    step.Commit? && (s.inflight[step.i].CompleteReq? || s.inflight[step.i].ExpireReq?) &&
    s.inflight[step.i].target == id
  }

  ghost predicate WithdrawnAt(keys: Keys, s: State, steps: seq<Step>, k: nat, id: string)
    requires k < |steps|
  {
    var t := Run(keys, s, steps[..k]);
    t.Some? && Enabled(t.value, steps[k]) && Withdraws(t.value, steps[k], id)
  }

  ghost predicate Withdrawn(keys: Keys, s: State, steps: seq<Step>, id: string) {
    exists k | 0 <= k < |steps| :: WithdrawnAt(keys, s, steps, k, id)
  }

  ghost predicate HasStatus(list: seq<Action>, id: string, settled: bool) {
    exists i | 0 <= i < |list| ::
      && list[i].id == id
      && if settled then list[i].status == Expired || list[i].status == Completed else list[i].status == Approved
  }

  /** An approved action stays approved until it is withdrawn; then it never comes back. */
  lemma StepOfStatus(keys: Keys, s: State, step: Step, id: string)
    requires Inv(keys, s) && Enabled(s, step)
    ensures HasStatus(s.actions, id, false) ==> HasStatus(Apply(keys, s, step).actions, id, Withdraws(s, step, id))
    ensures HasStatus(s.actions, id, true) ==> HasStatus(Apply(keys, s, step).actions, id, true)
  {
    if step.Commit? {
      CommitOfStatus(keys, s.actions, s.inflight[step.i], id);
    }
  }

  lemma CommitOfStatus(keys: Keys, list: seq<Action>, r: Request, id: string)
    requires DistinctIds(list)
    ensures HasStatus(list, id, false) ==>
              HasStatus(CommitTo(list, r), id, (r.CompleteReq? || r.ExpireReq?) && r.target == id)
    ensures HasStatus(list, id, true) ==> HasStatus(CommitTo(list, r), id, true)
  {
    match r
    case CreateReq(a) => CreateOfStatus(list, a, id);
    case ApproveReq(target, app) =>
      UpdatesTouchTarget(list, target, Expired, app);
      UpdateOfStatus(list, AddApproval(list, target, app), id);
    case OverrideReq(target) =>
      UpdatesTouchTarget(list, target, Expired, Approval("", Admin, ""));
      UpdateOfStatus(list, SetOverridden(list, target), id);
    case _ =>
      SettledOfStatus(list, r.target, if r.CompleteReq? then Completed else Expired, id);
  }

  lemma CreateOfStatus(list: seq<Action>, a: Action, id: string)
    ensures forall settled :: HasStatus(list, id, settled) ==> HasStatus([a] + list, id, settled)
  {
    assert forall i | 0 <= i < |list| :: ([a] + list)[i + 1] == list[i];
  }

  /** An update that leaves ids and settled or approved states alone. */
  lemma UpdateOfStatus(list: seq<Action>, after: seq<Action>, id: string)
    requires |after| == |list| && forall i | 0 <= i < |list| :: after[i].id == list[i].id
    requires forall i | 0 <= i < |list| :: list[i].status != Pending ==> after[i].status == list[i].status
    ensures forall settled :: HasStatus(list, id, settled) ==> HasStatus(after, id, settled)
  {
    forall settled | HasStatus(list, id, settled) ensures HasStatus(after, id, settled) {
      var i :| 0 <= i < |list| && list[i].id == id &&
               if settled then list[i].status == Expired || list[i].status == Completed else list[i].status == Approved;
      assert after[i].id == id && after[i].status == list[i].status;
    }
  }

  lemma SettledOfStatus(list: seq<Action>, target: string, status: Status, id: string)
    requires DistinctIds(list) && (status == Completed || status == Expired)
    ensures HasStatus(list, id, false) ==> HasStatus(SetStatus(list, target, status), id, target == id)
    ensures HasStatus(list, id, true) ==> HasStatus(SetStatus(list, target, status), id, true)
  {
    UpdatesTouchTarget(list, target, status, Approval("", Admin, ""));
    var after := SetStatus(list, target, status);
    forall settled | HasStatus(list, id, settled) ensures HasStatus(after, id, settled || target == id) {
      var i :| 0 <= i < |list| && list[i].id == id &&
               if settled then list[i].status == Expired || list[i].status == Completed else list[i].status == Approved;
      assert after[i].id == id && (target != id ==> after[i] == list[i]);
    }
  }

  lemma NotBoth(list: seq<Action>, id: string)
    requires DistinctIds(list)
    ensures !(HasStatus(list, id, false) && HasStatus(list, id, true))
  {
  }

  lemma {:induction false} ApprovedUntilWithdrawn(keys: Keys, s: State, steps: seq<Step>, id: string)
    requires Sound(keys) && Inv(keys, s) && HasStatus(s.actions, id, false) && Run(keys, s, steps).Some?
    ensures HasStatus(Run(keys, s, steps).value.actions, id, Withdrawn(keys, s, steps, id))
    decreases |steps|
  {
    if steps != [] {
      var n := |steps| - 1;
      var t := Run(keys, s, steps[..n]).value;
      ApprovedUntilWithdrawn(keys, s, steps[..n], id);
      RunKeepsInv(keys, s, steps[..n]);
      StepOfStatus(keys, t, steps[n], id);
      WithdrawnLast(keys, s, steps, n, t, id);
      WithdrawnStep(keys, s, steps, n, id);
    }
  }

  lemma WithdrawnStep(keys: Keys, s: State, steps: seq<Step>, n: nat, id: string)
    requires |steps| == n + 1
    ensures Withdrawn(keys, s, steps, id) <==> Withdrawn(keys, s, steps[..n], id) || WithdrawnAt(keys, s, steps, n, id)
  {
    WithdrawnStays(keys, s, steps, n, id);
    forall k: nat | k < n && WithdrawnAt(keys, s, steps, k, id) ensures Withdrawn(keys, s, steps[..n], id) {
      SameBefore(keys, s, steps, n, k, id);
    }
  }

  lemma WithdrawnLast(keys: Keys, s: State, steps: seq<Step>, n: nat, t: State, id: string)
    requires n < |steps| && Run(keys, s, steps[..n]) == Some(t) && Enabled(t, steps[n])
    ensures WithdrawnAt(keys, s, steps, n, id) <==> Withdraws(t, steps[n], id)
  {
  }

  lemma WithdrawnStays(keys: Keys, s: State, steps: seq<Step>, n: nat, id: string)
    requires n <= |steps|
    ensures Withdrawn(keys, s, steps[..n], id) ==> Withdrawn(keys, s, steps, id)
  {
    if Withdrawn(keys, s, steps[..n], id) {
      var k :| 0 <= k < |steps[..n]| && WithdrawnAt(keys, s, steps[..n], k, id);
      SameBefore(keys, s, steps, n, k, id);
    }
  }

  lemma SameBefore(keys: Keys, s: State, steps: seq<Step>, n: nat, k: nat, id: string)
    requires n <= |steps|
    ensures k < n ==> (WithdrawnAt(keys, s, steps[..n], k, id) <==> WithdrawnAt(keys, s, steps, k, id))
  {
    if k < n {
      assert steps[..n][..k] == steps[..k] && steps[..n][k] == steps[k];
    }
  }

  /** The action in front of all approved ones for its command. */
  ghost predicate IsFirstApproved(list: seq<Action>, command: string, id: string) {
    exists i | 0 <= i < |list| ::
      && list[i].id == id && list[i].command == command && list[i].status == Approved
      && forall j | 0 <= j < i :: !(list[j].command == command && list[j].status == Approved)
  }

  lemma FirstForIff(list: seq<Action>, command: string, id: string)
    requires DistinctIds(list)
    ensures FirstFor(list, command, Approved).Some? && FirstFor(list, command, Approved).value.id == id <==>
            IsFirstApproved(list, command, id)
  {
  }

  /** A newer approved action for the command stands in front of the one with this id. */
  ghost predicate IsShadowed(list: seq<Action>, command: string, id: string) {
    exists i, j | 0 <= j < i < |list| :: list[i].id == id && list[j].command == command && list[j].status == Approved
  }

  /** The action with this id has no vote of this person and none of this role. */
  ghost predicate TakesVote(list: seq<Action>, id: string, app: Approval) {
    exists i | 0 <= i < |list| :: list[i].id == id && !HasVoted(list[i], app.approver, app.role)
  }

  /**
   What a caller can see of a step before it is made: an execute request that is not locked out, for the command of
   the action and with no newer approved action for it in front; or a late vote on the action that is still to be
   counted, for a command that the auditor lets pass.
   */
  ghost predicate CallsOn(secure: Auditor, s: State, e: Step, a: Action)
    requires Enabled(s, e)
  {
    match e
    case SnapshotExecute(command, _, _, locked, _, _, _, _) =>
      command == a.command && command != "" && !locked && !IsShadowed(s.actions, command, a.id)
    case Commit(k) =>
      var r := s.inflight[k];
      r.ApproveReq? && r.target == a.id && TakesVote(s.actions, a.id, r.approval) && secure(a.command)
    case _ => false
  }

  /**
   One consensus can be used again, by either handler: any later step lets the command of an approved action run
   on that action's consensus exactly if it calls on it and no completion and no expiry of the action has been
   committed in between.
   */
  lemma GrantedAgainIff(keys: Keys, secure: Auditor, s: State, steps: seq<Step>, e: Step, a: Action)
    requires Sound(keys) && Inv(keys, s) && a in s.actions && a.status == Approved
    requires Run(keys, s, steps).Some? && Enabled(Run(keys, s, steps).value, e)
    ensures var t := Run(keys, s, steps).value;
            var g := GrantedBy(keys, secure, t, e);
            g.Some? && g.value.id == a.id <==> !Withdrawn(keys, s, steps, a.id) && CallsOn(secure, t, e, a)
  {
    var t := Run(keys, s, steps).value;
    RunKeepsInv(keys, s, steps);
    ApprovedUntilWithdrawn(keys, s, steps, a.id);
    NotBoth(t.actions, a.id);
    var i :| 0 <= i < |s.actions| && s.actions[i] == a;
    var j := ActionsEvolve(keys, s, steps, i);
    match e
    case SnapshotExecute(command, _, _, _, _, _, _, _) =>
      FirstForIff(t.actions, command, a.id);
      FirstForVerifies(keys, t, command);
      FirstApprovedIff(t.actions, command, a.id, j);
    case Commit(k) =>
      if t.inflight[k].ApproveReq? {
        LateVoteIff(keys, secure, t, k, a, j);
      }
    case _ =>
  }

  /** The commit of a vote lets an action run exactly if it counts and leaves the action approved. */
  lemma LateVoteIff(keys: Keys, secure: Auditor, t: State, k: nat, a: Action, j: nat)
    requires Inv(keys, t) && k < |t.inflight| && t.inflight[k].ApproveReq?
    requires j < |t.actions| && Evolves(a, t.actions[j]) && a.status == Approved
    ensures var g := GrantedByApproval(keys, secure, t.actions, t.inflight[k]);
            g.Some? && g.value.id == a.id <==>
            HasStatus(t.actions, a.id, false) && CallsOn(secure, t, Commit(k), a)
  {
    var r := t.inflight[k];
    AtIndex(t.actions, a.id, j, r.approval);
    assert GoodRequest(keys, r, t.actions, t.used) && GoodAction(keys, t.actions[j]);
    if r.target == a.id && !HasVoted(t.actions[j], r.approval.approver, r.approval.role) {
      assert GoodFor(keys, r, t.actions[j]);
      ApprovalKeepsGood(keys, t.actions[j], r.approval);
    }
  }

  lemma AtIndex(list: seq<Action>, id: string, j: nat, app: Approval)
    requires DistinctIds(list) && j < |list| && list[j].id == id
    ensures IndexOf(list, id) == j
    ensures TakesVote(list, id, app) <==> !HasVoted(list[j], app.approver, app.role)
    ensures HasStatus(list, id, false) <==> list[j].status == Approved
  {
    HasIdIndex(list, id);
  }

  lemma FirstApprovedIff(list: seq<Action>, command: string, id: string, j: nat)
    requires DistinctIds(list) && j < |list| && list[j].id == id
    ensures IsFirstApproved(list, command, id) <==>
            HasStatus(list, id, false) && list[j].command == command && !IsShadowed(list, command, id)
  {
  }

  lemma FirstForVerifies(keys: Keys, s: State, command: string)
    requires Inv(keys, s)
    ensures var f := FirstFor(s.actions, command, Approved); f.Some? ==> VerifyActionApprovals(keys, f.value)
  {
    var f := FirstFor(s.actions, command, Approved);
    if f.Some? {
      var i :| 0 <= i < |s.actions| && s.actions[i] == f.value;
      assert GoodAction(keys, s.actions[i]);
    }
  }

  // ---------- a run in which one consensus is used three times ----------

  function Vote(keys: Keys, role: Role): Approval {
    Approval(EmailOf(role), role, keys.sign(Payload("act_1", COMMAND, role, 0), role))
  }

  function EmailOf(role: Role): string {
    match role
    case Admin => "adm@x"
    case Auditor => "aud@x"
    case Developer => "dvl@x"
  }

  function Votes(keys: Keys, roles: seq<Role>): seq<Approval> {
    seq(|roles|, i requires 0 <= i < |roles| => Vote(keys, roles[i]))
  }

  const COMMAND := "npm run build"

  /** A request to run the command, gated and neither locked out nor dangerous. */
  const EXECUTE := SnapshotExecute(COMMAND, "dev@x", true, false, true, Safe, "act_1", 0)

  function Stored(keys: Keys, roles: seq<Role>): Action {
    NewAction("act_1", COMMAND, "dev@x", true, Safe, 0).(approvals := Votes(keys, roles))
  }

  const USED := {DUMMY_ID, "act_1"}

  lemma VotesGrow(keys: Keys)
    ensures Votes(keys, []) == [] && Votes(keys, [Admin]) == [Vote(keys, Admin)]
    ensures Votes(keys, [Admin]) + [Vote(keys, Auditor)] == Votes(keys, [Admin, Auditor])
  {
  }

  /** The command is queued, and the first of two approvals is stored. */
  lemma FirstApproval(keys: Keys) returns (steps: seq<Step>)
    ensures Run(keys, INITIAL, steps) == Some(State([Stored(keys, [Admin])], [], USED))
  {
    VotesGrow(keys);
    var s1 := State([], [CreateReq(Stored(keys, []))], {DUMMY_ID});
    var s2 := State([Stored(keys, [])], [], USED);
    var s3 := State([Stored(keys, [])], [ApproveReq("act_1", Vote(keys, Admin))], USED);
    assert Apply(keys, INITIAL, EXECUTE) == s1;
    assert Apply(keys, s1, Commit(0)) == s2;
    assert Apply(keys, s2, SnapshotApprove("act_1", "adm@x", Admin)) == s3;
    assert [] + [Vote(keys, Admin)] == Votes(keys, [Admin]);
    assert Apply(keys, s3, Commit(0)) == State([Stored(keys, [Admin])], [], USED);
    steps := [];
    Extend(keys, steps, EXECUTE, INITIAL);
    steps := steps + [EXECUTE];
    Extend(keys, steps, Commit(0), s1);
    steps := steps + [Commit(0)];
    Extend(keys, steps, SnapshotApprove("act_1", "adm@x", Admin), s2);
    steps := steps + [SnapshotApprove("act_1", "adm@x", Admin)];
    Extend(keys, steps, Commit(0), s3);
    steps := steps + [Commit(0)];
  }

  /**
   One consensus, three executions: the commit of the second approval lets the command run, and so do two
   execute requests, because no completion is committed before the last of them.
   */
  lemma OneConsensusGrantsThrice(keys: Keys, secure: Auditor) returns (steps: seq<Step>, s: State, a: Action)
    requires Sound(keys) && secure(COMMAND)
    ensures Run(keys, INITIAL, steps) == Some(s) && Enabled(s, Commit(0)) && a.id == "act_1"
    ensures GrantedBy(keys, secure, s, Commit(0)) == Some(a)
    ensures var t := Apply(keys, s, Commit(0));
            GrantedBy(keys, secure, t, EXECUTE) == Some(a) &&
            GrantedBy(keys, secure, Apply(keys, t, EXECUTE), EXECUTE) == Some(a)
  {
    steps := FirstApproval(keys);
    VotesGrow(keys);
    s := State([Stored(keys, [Admin])], [], USED);
    steps, s := ApproverAsks(keys, steps, s, Auditor);
    a := Stored(keys, [Admin, Auditor]).(status := Approved);
    assert WithApproval(Stored(keys, [Admin]), Vote(keys, Auditor)) == a;
    VotesVerify(keys, a, [Admin, Auditor]);
    assert Apply(keys, s, Commit(0)).actions == [a];
  }

  /** An approver passes the checks while the action still waits for its second vote. */
  lemma ApproverAsks(keys: Keys, steps: seq<Step>, s: State, role: Role) returns (more: seq<Step>, t: State)
    requires Run(keys, INITIAL, steps) == Some(s) && s.actions == [Stored(keys, [Admin])] && role != Admin
    ensures Run(keys, INITIAL, more) == Some(t)
    ensures t == s.(inflight := s.inflight + [ApproveReq("act_1", Vote(keys, role))])
  {
    VoteAsked(keys, role);
    t := Apply(keys, s, SnapshotApprove("act_1", EmailOf(role), role));
    Extend(keys, steps, SnapshotApprove("act_1", EmailOf(role), role), s);
    more := steps + [SnapshotApprove("act_1", EmailOf(role), role)];
  }

  lemma VoteAsked(keys: Keys, role: Role)
    requires role != Admin
    ensures ApproveRequest(keys, [Stored(keys, [Admin])], "act_1", EmailOf(role), role) ==
            ApproveReq("act_1", Vote(keys, role))
  {
    VotesGrow(keys);
  }

  /**
   One consensus, two executions, and no execute request: both of two approvers see a pending action with one
   vote; the commit of the first approves it and lets it run, and so does the commit of the other.
   */
  lemma LateVoteGrantsAgain(keys: Keys, secure: Auditor) returns (steps: seq<Step>, s: State, a: Action, b: Action)
    requires Sound(keys) && secure(COMMAND)
    ensures Run(keys, INITIAL, steps) == Some(s) && Enabled(s, Commit(0)) && a.id == b.id == "act_1"
    ensures GrantedBy(keys, secure, s, Commit(0)) == Some(a)
    ensures var t := Apply(keys, s, Commit(0));
            Enabled(t, Commit(0)) && GrantedBy(keys, secure, t, Commit(0)) == Some(b)
  {
    steps := FirstApproval(keys);
    s := State([Stored(keys, [Admin])], [], USED);
    steps, s := ApproverAsks(keys, steps, s, Auditor);
    steps, s := ApproverAsks(keys, steps, s, Developer);
    a := VoteGrants(keys, secure, s, Stored(keys, [Admin]), Auditor, [Admin]);
    b := VoteGrants(keys, secure, Apply(keys, s, Commit(0)), a, Developer, [Admin, Auditor]);
  }

  /** The first request in flight is the vote of this role on the only action, which then has enough votes. */
  lemma VoteGrants(keys: Keys, secure: Auditor, s: State, a: Action, role: Role, roles: seq<Role>) returns (b: Action)
    requires Sound(keys) && secure(COMMAND) && roles != [] && role !in roles && role != Admin && Developer !in roles
    requires (a == Stored(keys, roles) || a == Stored(keys, roles).(status := Approved)) && s.actions == [a]
    requires s.inflight != [] && s.inflight[0] == ApproveReq("act_1", Vote(keys, role))
    ensures b == Stored(keys, roles + [role]).(status := Approved)
    ensures GrantedBy(keys, secure, s, Commit(0)) == Some(b)
    ensures Apply(keys, s, Commit(0)) == State([b], s.inflight[1..], s.used)
  {
    b := Stored(keys, roles + [role]).(status := Approved);
    assert Votes(keys, roles) + [Vote(keys, role)] == Votes(keys, roles + [role]);
    assert !HasVoted(a, Vote(keys, role).approver, role);
    assert WithApproval(a, Vote(keys, role)) == b;
    VotesVerify(keys, b, roles + [role]);
  }

  lemma VotesVerify(keys: Keys, a: Action, roles: seq<Role>)
    requires Sound(keys) && roles != [] && a == Stored(keys, roles).(status := Approved)
    ensures VerifyActionApprovals(keys, a)
  {
  }
}
