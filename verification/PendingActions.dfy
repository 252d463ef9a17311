/**
 The list of actions waiting for consensus, as the JSON store keeps it.

 The first half defines the entities and, for each routine of the store, the
 list it turns the stored list into.  The class `PendingActionStore` at the end
 is the store itself: a list field that the routines search and change in place.
 */
module PendingActions {
  import opened Wrappers

  datatype Role = Admin | Developer | Auditor

  datatype Rating = Safe | Suspicious | Dangerous

  datatype Status = Pending | Approved | Expired | Completed

  datatype Approval = Approval(approver: string, role: Role, signature: string)

  datatype Action = Action(
    id: string,
    createdAt: int,
    expiresAt: int,
    command: string,
    initiator: string,
    requiredVotes: nat,
    status: Status,
    rating: Rating,
    overridden: bool,
    approvals: seq<Approval>)

  // ---------- role attestations ----------

  datatype Payload = Payload(actionId: string, command: string, role: Role, issuedAt: int)

  /** The key pairs of the three roles: what signing and verifying with them computes. */
  datatype Keys = Keys(sign: (Payload, Role) -> string, verify: (Payload, string, Role) -> bool)

  /** A signature made with a role's private key verifies under its public key. */
  ghost predicate Sound(keys: Keys) {
    forall p: Payload, role: Role :: keys.verify(p, keys.sign(p, role), role)
  }

  function PayloadFor(a: Action, role: Role): Payload {
    Payload(a.id, a.command, role, a.createdAt)
  }

  predicate Attested(keys: Keys, a: Action, app: Approval) {
    keys.verify(PayloadFor(a, app.role), app.signature, app.role)
  }

  predicate VerifyActionApprovals(keys: Keys, a: Action) {
    && a.approvals != []
    && forall i | 0 <= i < |a.approvals| :: Attested(keys, a, a.approvals[i])
  }

  // ---------- what each routine makes of the list ----------

  /** The index of the first action with this id; `|list|` when there is none. */
  function IndexOf(list: seq<Action>, id: string): (i: nat)
    ensures i <= |list|
    ensures i < |list| ==> list[i].id == id
    ensures forall k | 0 <= k < i :: list[k].id != id
  {
    if list == [] || list[0].id == id then 0 else 1 + IndexOf(list[1..], id)
  }

  predicate HasVoted(a: Action, approver: string, role: Role) {
    exists i | 0 <= i < |a.approvals| :: a.approvals[i].role == role || a.approvals[i].approver == approver
  }

  function WithApproval(a: Action, app: Approval): Action {
    var b := a.(approvals := a.approvals + [app]);
    if |b.approvals| >= b.requiredVotes && b.status == Pending then b.(status := Approved) else b
  }

  function AddApproval(list: seq<Action>, id: string, app: Approval): seq<Action> {
    var i := IndexOf(list, id);
    if i == |list| || HasVoted(list[i], app.approver, app.role) then list
    else list[i := WithApproval(list[i], app)]
  }

  function SetStatus(list: seq<Action>, id: string, status: Status): seq<Action> {
    var i := IndexOf(list, id);
    if i == |list| then list else list[i := list[i].(status := status)]
  }

  function SetOverridden(list: seq<Action>, id: string): seq<Action> {
    var i := IndexOf(list, id);
    if i == |list| then list else list[i := list[i].(overridden := true)]
  }

  // ---------- the store ----------

  datatype ApprovalOutcome = NoSuchAction | DuplicateVote | Recorded(action: Action)

  class PendingActionStore {
    var actions: seq<Action>

    constructor ()
      ensures actions == []
    {
      actions := [];
    }

    /** `list.find(a => a.id === id)`, as a loop. */
    method Find(id: string) returns (i: nat)
      ensures i == IndexOf(actions, id)
    {
      i := 0;
      while i < |actions| && actions[i].id != id
        invariant i <= |actions|
        invariant forall k | 0 <= k < i :: actions[k].id != id
      {
        i := i + 1;
      }
    }

    /** `action.approvals.some(...)`, as a loop. */
    method Voted(a: Action, approver: string, role: Role) returns (voted: bool)
      ensures voted == HasVoted(a, approver, role)
    {
      voted := false;
      for k := 0 to |a.approvals|
        invariant !voted
        invariant forall j | 0 <= j < k :: a.approvals[j].role != role && a.approvals[j].approver != approver
      {
        if a.approvals[k].role == role || a.approvals[k].approver == approver {
          return true;
        }
      }
    }

    /** `createPendingAction`: a vote count of zero or none means two. */
    method Create(id: string, now: int, command: string, initiator: string,
                  requiredVotes: nat, expiresInSeconds: nat, rating: Rating)
      returns (entry: Action)
      modifies this
      ensures actions == [entry] + old(actions)
      ensures entry.id == id && entry.command == command && entry.initiator == initiator && entry.createdAt == now
      ensures entry.status == Pending && entry.approvals == [] && !entry.overridden && entry.rating == rating
      ensures entry.requiredVotes == if requiredVotes == 0 then 2 else requiredVotes
      ensures entry.expiresAt == now + 1000 * (if expiresInSeconds == 0 then 3600 else expiresInSeconds)
    {
      var votes := if requiredVotes == 0 then 2 else requiredVotes;
      var expiresAt := now + (if expiresInSeconds == 0 then 3600 else expiresInSeconds) * 1000;
      entry := Action(id, now, expiresAt, command, initiator, votes, Pending, rating, false, []);
      actions := [entry] + actions;
    }

    method AddConsensusApproval(id: string, app: Approval) returns (outcome: ApprovalOutcome)
      modifies this
      ensures actions == AddApproval(old(actions), id, app)
      ensures outcome.Recorded? <==> |actions| > IndexOf(old(actions), id) &&
                                     !HasVoted(old(actions)[IndexOf(old(actions), id)], app.approver, app.role)
      ensures outcome.NoSuchAction? <==> IndexOf(old(actions), id) == |old(actions)|
      ensures outcome.Recorded? ==> outcome.action == actions[IndexOf(old(actions), id)]
    {
      var i := Find(id);
      if i == |actions| {
        return NoSuchAction;
      }
      var action := actions[i];
      var duplicate := Voted(action, app.approver, app.role);
      if duplicate {
        return DuplicateVote;
      }
      action := action.(approvals := action.approvals + [app]);
      if |action.approvals| >= action.requiredVotes && action.status == Pending {
        action := action.(status := Approved);
      }
      actions := actions[i := action];
      outcome := Recorded(action);
    }

    method ExpirePendingAction(id: string)
      modifies this
      ensures actions == SetStatus(old(actions), id, Expired)
    {
      var i := Find(id);
      if i < |actions| {
        actions := actions[i := actions[i].(status := Expired)];
      }
    }

    method AdminOverrideAction(id: string)
      modifies this
      ensures actions == SetOverridden(old(actions), id)
    {
      var i := Find(id);
      if i < |actions| {
        actions := actions[i := actions[i].(overridden := true)];
      }
    }

    method CompleteAction(id: string)
      modifies this
      ensures actions == SetStatus(old(actions), id, Completed)
    {
      var i := Find(id);
      if i < |actions| {
        actions := actions[i := actions[i].(status := Completed)];
      }
    }
  }
}
