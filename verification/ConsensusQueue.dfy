/**
 How many pending actions one command can have.

 The execute endpoint looks for a pending action of its command before it asks
 for a new one, but it looks at its snapshot.  A second action for the command can
 come to wait exactly when another request to create one is still in flight.
 */
module ConsensusQueue {
  import opened Wrappers
  import opened PendingActions
  import opened ConsensusProtocol

  ghost predicate PendingAt(list: seq<Action>, i: nat, command: string, id: string) {
    i < |list| && list[i].command == command && list[i].status == Pending && list[i].id == id
  }

  /** A request to create an action for the command, under an id that nothing has been stored under. */
  ghost predicate CreatesAt(s: State, k: nat, command: string, id: string) {
    && k < |s.inflight| && s.inflight[k].CreateReq?
    && s.inflight[k].action.command == command && s.inflight[k].action.id == id && id !in s.used
  }

  ghost predicate IsPending(list: seq<Action>, command: string, id: string) {
    exists i: nat :: PendingAt(list, i, command, id)
  }

  ghost predicate IsAsked(s: State, command: string, id: string) {
    exists k: nat :: CreatesAt(s, k, command, id)
  }

  /** The id of a pending action for the command, or of one about to be stored. */
  ghost predicate Waits(s: State, command: string, id: string) {
    IsPending(s.actions, command, id) || IsAsked(s, command, id)
  }

  ghost predicate TwoPending(list: seq<Action>, command: string) {
    exists x, y :: x != y && IsPending(list, command, x) && IsPending(list, command, y)
  }

  ghost predicate TwoWait(s: State, command: string) {
    exists x, y :: x != y && Waits(s, command, x) && Waits(s, command, y)
  }

  ghost predicate OnlyCommits(steps: seq<Step>) {
    forall k | 0 <= k < |steps| :: steps[k].Commit?
  }

  /** Committing what is in flight, in some order, leads to two pending actions for the command. */
  ghost predicate CanDouble(keys: Keys, s: State, command: string) {
    exists steps: seq<Step> :: Doubles(keys, s, steps, command)
  }

  // ---------- commits make no new one wait ----------

  ghost predicate Creates(r: Request, command: string, id: string) {
    r.CreateReq? && r.action.command == command && r.action.id == id
  }

  lemma CommitPending(list: seq<Action>, r: Request, command: string, id: string)
    requires IsPending(CommitTo(list, r), command, id)
    ensures Creates(r, command, id) || IsPending(list, command, id)
  {
    var j: nat :| PendingAt(CommitTo(list, r), j, command, id);
    if !r.CreateReq? {
      assert PendingAt(list, j, command, id);
    } else if j > 0 {
      assert PendingAt(list, j - 1, command, id);
    }
  }

  lemma CommitWaits(keys: Keys, s: State, i: nat, command: string, id: string)
    requires Enabled(s, Commit(i)) && Waits(Apply(keys, s, Commit(i)), command, id)
    ensures Waits(s, command, id)
  {
    var t := Apply(keys, s, Commit(i));
    if IsPending(t.actions, command, id) {
      CommitPending(s.actions, s.inflight[i], command, id);
      assert Creates(s.inflight[i], command, id) ==> CreatesAt(s, i, command, id);
    } else {
      var k: nat :| CreatesAt(t, k, command, id);
      assert CreatesAt(s, if k < i then k else k + 1, command, id);
    }
  }

  lemma {:induction false} CommitsWait(keys: Keys, s: State, steps: seq<Step>, command: string, id: string)
    requires OnlyCommits(steps) && Run(keys, s, steps).Some? && Waits(Run(keys, s, steps).value, command, id)
    ensures Waits(s, command, id)
    decreases |steps|
  {
    if steps != [] {
      var n := |steps| - 1;
      CommitWaits(keys, Run(keys, s, steps[..n]).value, steps[n].i, command, id);
      CommitsWait(keys, s, steps[..n], command, id);
    }
  }

  // ---------- two that wait come to be pending ----------

  lemma StillPending(list: seq<Action>, a: Action, command: string, id: string)
    requires IsPending(list, command, id)
    ensures IsPending([a] + list, command, id)
  {
    var i: nat :| PendingAt(list, i, command, id);
    assert PendingAt([a] + list, i + 1, command, id);
  }

  /** The commit of a creation makes its action pending and leaves the others alone. */
  lemma CreateCommits(keys: Keys, s: State, k: nat, command: string, id: string)
    requires Inv(keys, s) && CreatesAt(s, k, command, id)
    ensures Enabled(s, Commit(k)) && IsPending(Apply(keys, s, Commit(k)).actions, command, id)
    ensures forall x | IsPending(s.actions, command, x) :: IsPending(Apply(keys, s, Commit(k)).actions, command, x)
    ensures forall x | Waits(s, command, x) :: Waits(Apply(keys, s, Commit(k)), command, x)
  {
    var t := Apply(keys, s, Commit(k));
    var r := s.inflight[k];
    assert GoodRequest(keys, r, s.actions, s.used);
    assert PendingAt(t.actions, 0, command, id);
    forall x | IsPending(s.actions, command, x) ensures IsPending(t.actions, command, x) {
      StillPending(s.actions, r.action, command, x);
    }
    forall x | IsAsked(s, command, x) && x != id ensures IsAsked(t, command, x) {
      var j: nat :| CreatesAt(s, j, command, x);
      assert CreatesAt(t, if j < k then j else j - 1, command, x);
    }
  }

  /** An action that waits is made pending by one commit at most. */
  lemma MadePending(keys: Keys, s: State, command: string, x: string) returns (steps: seq<Step>, t: State)
    requires Sound(keys) && Inv(keys, s) && Waits(s, command, x)
    ensures OnlyCommits(steps) && |steps| <= 1 && Run(keys, s, steps) == Some(t)
    ensures Inv(keys, t) && IsPending(t.actions, command, x)
    ensures forall y | Waits(s, command, y) :: Waits(t, command, y)
    ensures forall y | IsPending(s.actions, command, y) :: IsPending(t.actions, command, y)
  {
    if IsPending(s.actions, command, x) {
      steps, t := [], s;
    } else {
      var k: nat :| CreatesAt(s, k, command, x);
      CreateCommits(keys, s, k, command, x);
      StepKeepsInv(keys, s, Commit(k));
      steps, t := [Commit(k)], Apply(keys, s, Commit(k));
      RunOne(keys, s, Commit(k));
    }
  }

  lemma RunOne(keys: Keys, s: State, step: Step)
    requires Enabled(s, step)
    ensures Run(keys, s, [step]) == Some(Apply(keys, s, step))
  {
    assert [step][..0] == [];
    assert Run(keys, s, []) == Some(s);
  }

  lemma RunOn(keys: Keys, s: State, first: seq<Step>, t: State, second: seq<Step>)
    requires Run(keys, s, first) == Some(t) && |second| <= 1
    ensures Run(keys, s, first + second) == Run(keys, t, second)
  {
    if second == [] {
      assert first + second == first;
    } else {
      assert (first + second)[..|first|] == first && second[..0] == [];
      assert Run(keys, t, second[..0]) == Some(t);
    }
  }

  /** Where the steps lead, in one expression. */
  ghost predicate Doubles(keys: Keys, s: State, steps: seq<Step>, command: string) {
    OnlyCommits(steps) && Run(keys, s, steps).Some? && TwoPending(Run(keys, s, steps).value.actions, command)
  }

  lemma DoublesBack(keys: Keys, s: State, steps: seq<Step>, command: string)
    requires Doubles(keys, s, steps, command)
    ensures TwoWait(s, command)
  {
    var t := Run(keys, s, steps).value;
    var x, y :| x != y && IsPending(t.actions, command, x) && IsPending(t.actions, command, y);
    assert Waits(t, command, x) && Waits(t, command, y);
    CommitsWait(keys, s, steps, command, x);
    CommitsWait(keys, s, steps, command, y);
  }

  lemma TwoWaitDoubles(keys: Keys, s: State, command: string, x: string, y: string) returns (steps: seq<Step>)
    requires Sound(keys) && Inv(keys, s) && x != y && Waits(s, command, x) && Waits(s, command, y)
    ensures Doubles(keys, s, steps, command)
  {
    var first, t := MadePending(keys, s, command, x);
    var second, u := MadePending(keys, t, command, y);
    RunOn(keys, s, first, t, second);
    steps := first + second;
    assert IsPending(u.actions, command, x) && IsPending(u.actions, command, y);
  }

  /** Commits alone lead to two pending actions for a command exactly if two ids wait for it. */
  lemma DoublesIff(keys: Keys, s: State, command: string)
    requires Sound(keys) && Inv(keys, s)
    ensures CanDouble(keys, s, command) <==> TwoWait(s, command)
  {
    if TwoWait(s, command) {
      var x, y :| x != y && Waits(s, command, x) && Waits(s, command, y);
      var steps := TwoWaitDoubles(keys, s, command, x, y);
    }
    if steps: seq<Step> :| Doubles(keys, s, steps, command) {
      DoublesBack(keys, s, steps, command);
    }
  }

  // ---------- the step that makes a second one wait ----------

  /** The checks of the execute endpoint, on its snapshot, after which it asks for a new action. */
  ghost predicate Queues(list: seq<Action>, e: Step) {
    && e.SnapshotExecute? && !e.locked && e.command != "" && (e.gated || !e.syscallSecure)
    && forall i | 0 <= i < |list| ::
         !(list[i].command == e.command && (list[i].status == Approved || list[i].status == Pending))
  }

  lemma QueuesIff(keys: Keys, list: seq<Action>, e: Step)
    requires e.SnapshotExecute?
    ensures Queues(list, e) ==>
              ExecuteRequests(keys, list, e) ==
              [CreateReq(NewAction(e.newId, e.command, e.email, e.syscallSecure, e.auditRating, e.now))]
    ensures !Queues(list, e) ==> forall r | r in ExecuteRequests(keys, list, e) :: !r.CreateReq?
  {
  }

  lemma {:induction false} ExpiryCreatesNone(list: seq<Action>, now: int)
    ensures forall r | r in ExpiryRequests(list, now) :: !r.CreateReq?
  {
    if list != [] {
      ExpiryCreatesNone(list[1..], now);
    }
  }

  /** What a handler adds to what waits: the id of the action it asks for. */
  lemma HandlerWaits(keys: Keys, s: State, e: Step, command: string, id: string)
    requires Enabled(s, e) && !e.Commit?
    ensures Waits(Apply(keys, s, e), command, id) <==>
            Waits(s, command, id) || (Queues(s.actions, e) && e.command == command && e.newId == id && id !in s.used)
  {
    var more := Asked(keys, s, e);
    if e.SnapshotExecute? {
      QueuesIff(keys, s.actions, e);
      assert Queues(s.actions, e) ==> Creates(more[0], e.command, e.newId);
    } else if e.SnapshotExpiry? {
      ExpiryCreatesNone(s.actions, e.now);
    }
    Added(s, Apply(keys, s, e), more, command, id);
  }

  /** What a handler's step puts in flight. */
  function Asked(keys: Keys, s: State, e: Step): (rs: seq<Request>)
    requires Enabled(s, e) && !e.Commit?
    ensures Apply(keys, s, e) == s.(inflight := s.inflight + rs)
  {
    match e
    case SnapshotApprove(id, email, role) => [ApproveRequest(keys, s.actions, id, email, role)]
    case SnapshotExecute(_, _, _, _, _, _, _, _) => ExecuteRequests(keys, s.actions, e)
    case SnapshotExpiry(now) => ExpiryRequests(s.actions, now)
    case AdminOverride(id) => [OverrideReq(id)]
  }

  lemma Added(s: State, t: State, more: seq<Request>, command: string, id: string)
    requires t == s.(inflight := s.inflight + more)
    ensures IsAsked(t, command, id) <==>
            IsAsked(s, command, id) || (id !in s.used && exists k | 0 <= k < |more| :: Creates(more[k], command, id))
  {
    if IsAsked(t, command, id) {
      var k: nat :| CreatesAt(t, k, command, id);
      assert if k < |s.inflight| then CreatesAt(s, k, command, id) else Creates(more[k - |s.inflight|], command, id);
    }
    if IsAsked(s, command, id) {
      var k: nat :| CreatesAt(s, k, command, id);
      assert CreatesAt(t, k, command, id);
    }
    if k :| 0 <= k < |more| && Creates(more[k], command, id) && id !in s.used {
      assert CreatesAt(t, |s.inflight| + k, command, id);
    }
  }

  /** The step asks for a new action while another request to create one for the same command is in flight. */
  ghost predicate Overtakes(s: State, e: Step, command: string) {
    && Queues(s.actions, e) && e.command == command && e.newId !in s.used
    && exists id :: id != e.newId && IsAsked(s, command, id)
  }

  /**
   Exactly when the check for a pending action fails: the step after which a command can come to have two pending
   actions is an execute request that asks for one while another creation for the command is in flight.
   */
  lemma SecondActionIff(keys: Keys, s: State, e: Step, command: string)
    requires Sound(keys) && Inv(keys, s) && Enabled(s, e) && !CanDouble(keys, s, command)
    ensures CanDouble(keys, Apply(keys, s, e), command) <==> Overtakes(s, e, command)
  {
    StepKeepsInv(keys, s, e);
    DoublesIff(keys, s, command);
    DoublesIff(keys, Apply(keys, s, e), command);
    if e.Commit? {
      CommitTwo(keys, s, e.i, command);
    } else {
      HandlerTwo(keys, s, e, command);
    }
  }

  lemma CommitTwo(keys: Keys, s: State, i: nat, command: string)
    requires Enabled(s, Commit(i))
    ensures TwoWait(Apply(keys, s, Commit(i)), command) ==> TwoWait(s, command)
  {
    var t := Apply(keys, s, Commit(i));
    if x, y :| x != y && Waits(t, command, x) && Waits(t, command, y) {
      CommitWaits(keys, s, i, command, x);
      CommitWaits(keys, s, i, command, y);
    }
  }

  lemma HandlerTwo(keys: Keys, s: State, e: Step, command: string)
    requires Inv(keys, s) && Enabled(s, e) && !e.Commit? && !TwoWait(s, command)
    ensures TwoWait(Apply(keys, s, e), command) <==> Overtakes(s, e, command)
  {
    var t := Apply(keys, s, e);
    forall x ensures Waits(t, command, x) <==>
                     Waits(s, command, x) ||
                     (Queues(s.actions, e) && e.command == command && e.newId == x && x !in s.used)
    {
      HandlerWaits(keys, s, e, command, x);
    }
    if TwoWait(t, command) {
      var x, y :| x != y && Waits(t, command, x) && Waits(t, command, y);
      assert !(Waits(s, command, x) && Waits(s, command, y));
      assert IsAsked(s, command, if x == e.newId then y else x);
    }
    if Overtakes(s, e, command) {
      var id :| id != e.newId && IsAsked(s, command, id);
      assert Waits(t, command, id) && Waits(t, command, e.newId);
    }
  }

  /** No step of the run asks for an action while another creation for its command is in flight. */
  ghost predicate NeverOvertakes(keys: Keys, steps: seq<Step>, command: string) {
    forall k | 0 <= k < |steps| ::
      var t := Run(keys, INITIAL, steps[..k]);
      t.Some? ==> !Overtakes(t.value, steps[k], command)
  }

  /** Without such a step a command has at most one pending action at any moment of any run. */
  lemma {:induction false} OnePendingEach(keys: Keys, steps: seq<Step>, command: string)
    requires Sound(keys) && Run(keys, INITIAL, steps).Some? && NeverOvertakes(keys, steps, command)
    ensures !CanDouble(keys, Run(keys, INITIAL, steps).value, command)
    ensures !TwoPending(Run(keys, INITIAL, steps).value.actions, command)
    decreases |steps|
  {
    if steps == [] {
      DoublesIff(keys, INITIAL, command);
    } else {
      var n := |steps| - 1;
      Earlier(keys, steps, n, command);
      OnePendingEach(keys, steps[..n], command);
      RunKeepsInv(keys, INITIAL, steps[..n]);
      SecondActionIff(keys, Run(keys, INITIAL, steps[..n]).value, steps[n], command);
    }
    NoTwo(keys, Run(keys, INITIAL, steps).value, command);
  }

  lemma Earlier(keys: Keys, steps: seq<Step>, n: nat, command: string)
    requires n <= |steps| && NeverOvertakes(keys, steps, command)
    ensures NeverOvertakes(keys, steps[..n], command)
  {
    forall k | 0 <= k < n ensures steps[..n][..k] == steps[..k] {
    }
  }

  lemma NoTwo(keys: Keys, s: State, command: string)
    ensures TwoPending(s.actions, command) ==> CanDouble(keys, s, command)
  {
    assert TwoPending(s.actions, command) ==> Doubles(keys, s, [], command);
  }

  // ---------- a run with two ----------

  const COMMAND := "npm run build"

  function Queue(id: string): Step {
    SnapshotExecute(COMMAND, "dev@x", true, false, true, Safe, id, 0)
  }

  function Queued(id: string): Action {
    NewAction(id, COMMAND, "dev@x", true, Safe, 0)
  }

  /** Two execute requests for one command look before either has stored its action. */
  lemma TwoQueued(keys: Keys) returns (steps: seq<Step>, t: State)
    ensures steps == [Queue("act_1"), Queue("act_2"), Commit(0), Commit(0)]
    ensures Run(keys, INITIAL, steps) == Some(t) && TwoPending(t.actions, COMMAND)
  {
    var s: State;
    steps, s := BothAsked(keys);
    var u: State;
    u, t := BothCommitted(keys, s);
    Extend(keys, steps, Commit(0), s);
    Extend(keys, steps + [Commit(0)], Commit(0), u);
    steps := steps + [Commit(0)] + [Commit(0)];
    BothPending(t.actions, Queued("act_2"), Queued("act_1"));
  }

  lemma BothCommitted(keys: Keys, s: State) returns (u: State, t: State)
    requires s == State([], [CreateReq(Queued("act_1")), CreateReq(Queued("act_2"))], {DUMMY_ID})
    ensures Queued("act_1").id != Queued("act_2").id
    ensures Enabled(s, Commit(0)) && u == Apply(keys, s, Commit(0))
    ensures Enabled(u, Commit(0)) && t == Apply(keys, u, Commit(0)) && t.actions == [Queued("act_2"), Queued("act_1")]
  {
    assert "act_1"[4] != "act_2"[4];
    u := State([Queued("act_1")], [CreateReq(Queued("act_2"))], {DUMMY_ID, "act_1"});
    assert Apply(keys, s, Commit(0)) == u;
    t := Apply(keys, u, Commit(0));
  }

  lemma BothAsked(keys: Keys) returns (steps: seq<Step>, s: State)
    ensures steps == [Queue("act_1"), Queue("act_2")] && Run(keys, INITIAL, steps) == Some(s)
    ensures s == State([], [CreateReq(Queued("act_1")), CreateReq(Queued("act_2"))], {DUMMY_ID})
  {
    var s1 := State([], [CreateReq(Queued("act_1"))], {DUMMY_ID});
    assert Apply(keys, INITIAL, Queue("act_1")) == s1;
    Extend(keys, [], Queue("act_1"), INITIAL);
    s := Apply(keys, s1, Queue("act_2"));
    Extend(keys, [] + [Queue("act_1")], Queue("act_2"), s1);
    steps := [] + [Queue("act_1")] + [Queue("act_2")];
  }

  lemma BothPending(list: seq<Action>, a: Action, b: Action)
    requires list == [a, b] && a.id != b.id && a.command == b.command && a.status == b.status == Pending
    ensures TwoPending(list, a.command)
  {
    assert PendingAt(list, 0, a.command, a.id) && PendingAt(list, 1, a.command, b.id);
    assert IsPending(list, a.command, a.id) && IsPending(list, a.command, b.id);
  }
}
