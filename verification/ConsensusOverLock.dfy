/**
 The consensus protocol running on the lock file.

 Here a commit is not one step: a handler's decision waits until some call of
 the locked update takes it up, and that call creates the lock file, reads,
 writes and renames while other calls and unlocked readers run between any two
 of its steps.

 Two writes take no lock.  Clearing the database puts an empty list into the
 file; and so does a reader that finds no file, which can only happen when
 something outside has removed it, since the store creates it on startup.  The
 main lemma shows that whatever list a run without these two leaves in the file,
 the protocol with atomic commits reaches too.
 */
module ConsensusOverLock {
  import opened Wrappers
  import opened PendingActions
  import C = ConsensusProtocol
  import L = JsonStoreLock

  type Request = C.Request

  /**
   `held[p]` is the request call `p` has taken up and not yet written; `seeding` counts
   the readers that found no file and have not yet written the empty list; `used` are the ids stored so far.
   */
  datatype World = World(lock: L.State<seq<Action>>, todo: seq<Request>, held: seq<Option<Request>>, seeding: nat,
                         used: set<string>)

  datatype Step =
    | Handle(step: C.Step)              // a handler decides on the list it reads without the lock
    | Start(p: nat, i: nat)             // call p takes up the i-th waiting request
    | LockStep(call: L.Step<seq<Action>>)
    | FindAbsent                        // a reader finds no file
    | SeedEmpty                         // ... and renames an empty list into its place
    | ClearDatabase                     // an administrator resets the store, without the lock

  function Listed(w: World): seq<Action> {
    L.View(w.lock.file, [])
  }

  /** The modify function a routine of the store hands to `lockAndModify`. */
  function Update(r: Request): L.Modify<seq<Action>> {
    list => Some(C.CommitTo(list, r))
  }

  /** As in the protocol, the id of an action about to be stored has never been used. */
  predicate FreshId(w: World, p: nat) {
    && p < |w.held|
    && (w.held[p].Some? && w.held[p].value.CreateReq? ==> w.held[p].value.action.id !in w.used)
  }

  predicate Enabled(w: World, step: Step) {
    match step
    case Handle(c) => !c.Commit?
    case Start(p, i) => p < |w.held| && i < |w.todo| && L.Enabled(w.lock, L.Begin(p, Update(w.todo[i])))
    case LockStep(l) => !l.Begin? && L.Enabled(w.lock, l) && (l.Rename? ==> FreshId(w, l.p))
    case FindAbsent => w.lock.file.Absent?
    case SeedEmpty => w.seeding > 0
    case ClearDatabase => true
  }

  function Apply(keys: Keys, w: World, step: Step): World
    requires Enabled(w, step)
  {
    match step
    case Handle(c) => w.(todo := C.Apply(keys, C.State(Listed(w), w.todo, w.used), c).inflight)
    case Start(p, i) =>
      w.(lock := L.Apply([], w.lock, L.Begin(p, Update(w.todo[i]))),
         todo := w.todo[..i] + w.todo[i + 1..],
         held := w.held[p := Some(w.todo[i])])
    case LockStep(l) =>
      w.(lock := L.Apply([], w.lock, l),
         held := if l.Rename? then w.held[l.p := None] else w.held,
         used := if l.Rename? && w.held[l.p].Some? then C.UsedAfter(w.used, w.held[l.p].value) else w.used)
    case FindAbsent => w.(seeding := w.seeding + 1)
    case SeedEmpty => w.(seeding := w.seeding - 1, lock := w.lock.(file := L.Holds([])))
    case ClearDatabase => w.(lock := w.lock.(file := L.Holds([])))
  }

  function Run(keys: Keys, w: World, steps: seq<Step>): Option<World>
    decreases |steps|
  {
    if steps == [] then Some(w)
    else
      var last := |steps| - 1;
      match Run(keys, w, steps[..last])
      case None => None
      case Some(v) => if Enabled(v, steps[last]) then Some(Apply(keys, v, steps[last])) else None
  }

  /** No action stored yet, nobody inside, nothing waiting. */
  ghost predicate Initial(w: World) {
    && L.Initial(w.lock) && Listed(w) == [] && w.todo == [] && w.seeding == 0 && w.used == {C.DUMMY_ID}
    && |w.held| == |w.lock.procs| && forall p | 0 <= p < |w.held| :: w.held[p] == None
  }

  /** Whenever a call compares the lock's age with the stale limit, the lock is younger. */
  ghost predicate NeverStale(keys: Keys, w: World, steps: seq<Step>) {
    forall k | 0 <= k < |steps| && steps[k].LockStep? && steps[k].call.StatAge? ::
      var v := Run(keys, w, steps[..k]);
      v.Some? ==> !L.Stale(v.value.lock)
  }

  ghost predicate NeverCleared(steps: seq<Step>) {
    forall k | 0 <= k < |steps| :: steps[k] != ClearDatabase
  }

  // ---------- what holds in every world of a run ----------

  /** A call between its start and its rename runs the update of the request it holds. */
  ghost predicate Holds(w: World, p: nat)
    requires p < |w.lock.procs| && p < |w.held|
  {
    var q := w.lock.procs[p];
    q.Creating? || q.Refused? || q.Breaking? || q.Entered? || q.HasRead? || q.Written? ==>
      w.held[p].Some? && q.op == Update(w.held[p].value)
  }

  ghost predicate WorldInv(w: World) {
    && L.Inv([], [], w.lock)
    && !w.lock.file.Absent? && w.seeding == 0
    && |w.held| == |w.lock.procs|
    && forall p | 0 <= p < |w.held| :: Holds(w, p)
  }

  lemma StepKeepsInv(keys: Keys, w: World, step: Step)
    requires WorldInv(w) && Enabled(w, step) && step != ClearDatabase
    requires step.LockStep? && step.call.StatAge? ==> !L.Stale(w.lock)
    ensures WorldInv(Apply(keys, w, step))
  {
    var v := Apply(keys, w, step);
    if step.Start? {
      L.StepKeepsInv([], [], w.lock, L.Begin(step.p, Update(w.todo[step.i])));
    } else if step.LockStep? {
      L.StepKeepsInv([], [], w.lock, step.call);
    }
    forall p | 0 <= p < |v.held| ensures Holds(v, p) {
      assert Holds(w, p);
    }
  }

  /** The rename puts into the file what the held request makes of the list that is in the file at that moment. */
  lemma RenameCommits(keys: Keys, w: World, p: nat)
    requires WorldInv(w) && Enabled(w, LockStep(L.Rename(p)))
    ensures w.held[p].Some? && Listed(Apply(keys, w, LockStep(L.Rename(p)))) == C.CommitTo(Listed(w), w.held[p].value)
  {
    assert Holds(w, p);
    assert L.Inside(w.lock.procs[p]);
  }

  /** Apart from the two writes that take no lock, no other step changes the list. */
  lemma OnlyRenameWrites(keys: Keys, w: World, step: Step)
    requires Enabled(w, step) && !(step.LockStep? && step.call.Rename?) && step != SeedEmpty && step != ClearDatabase
    ensures Listed(Apply(keys, w, step)) == Listed(w)
  {
  }

  // ---------- the requests not yet written, as a bag ----------

  function One(o: Option<Request>): multiset<Request> {
    if o.Some? then multiset{o.value} else multiset{}
  }

  function Bag(held: seq<Option<Request>>): multiset<Request> {
    if held == [] then multiset{} else One(held[0]) + Bag(held[1..])
  }

  lemma {:induction false} BagUpdate(held: seq<Option<Request>>, p: nat, o: Option<Request>)
    requires p < |held|
    ensures Bag(held[p := o]) + One(held[p]) == Bag(held) + One(o)
  {
    if p > 0 {
      BagUpdate(held[1..], p - 1, o);
      assert held[p := o][1..] == held[1..][p - 1 := o];
      AddFirst(One(held[0]), Bag(held[p := o][1..]), One(held[p]), Bag(held[1..]), One(o));
    } else {
      assert held[p := o][1..] == held[1..];
      AddFirst(Bag(held[1..]), One(o), One(held[p]), One(held[p]), One(o));
    }
  }

  lemma AddFirst(x: multiset<Request>, a: multiset<Request>, b: multiset<Request>, c: multiset<Request>,
                 d: multiset<Request>)
    requires a + b == c + d
    ensures (x + a) + b == (x + c) + d
  {
    forall r ensures (x + a + b)[r] == (x + c + d)[r] {
      assert (a + b)[r] == (c + d)[r];
    }
  }

  lemma {:induction false} EmptyBag(held: seq<Option<Request>>)
    requires forall p | 0 <= p < |held| :: held[p] == None
    ensures Bag(held) == multiset{}
  {
    if held != [] {
      EmptyBag(held[1..]);
    }
  }

  lemma BagWithout(todo: seq<Request>, i: nat)
    requires i < |todo|
    ensures multiset(todo) == multiset(todo[..i] + todo[i + 1..]) + multiset{todo[i]}
  {
    assert todo == todo[..i] + [todo[i]] + todo[i + 1..];
  }

  lemma Moved(todo: multiset<Request>, todo': multiset<Request>, x: multiset<Request>,
              bag: multiset<Request>, bag': multiset<Request>, was: multiset<Request>)
    requires todo == todo' + x && bag' + was == bag + x
    ensures todo' + bag' <= todo + bag
  {
    forall r ensures (todo' + bag')[r] <= (todo + bag)[r] {
      assert (bag' + was)[r] == (bag + x)[r] && todo[r] == (todo' + x)[r];
    }
  }

  lemma Dropped(todo: multiset<Request>, bag: multiset<Request>, bag': multiset<Request>, x: multiset<Request>,
                inflight: multiset<Request>, inflight': multiset<Request>)
    requires bag == bag' + x && inflight == inflight' + x && todo + bag <= inflight
    ensures todo + bag' <= inflight'
  {
    forall r ensures (todo + bag')[r] <= inflight'[r] {
      assert (todo + bag)[r] <= inflight[r];
    }
  }

  // ---------- refinement ----------

  /** The protocol state `s` has the same list and still has every request of `w` in flight. */
  ghost predicate Abstracts(s: C.State, w: World) {
    s.actions == Listed(w) && s.used == w.used && multiset(w.todo) + Bag(w.held) <= multiset(s.inflight)
  }

  lemma HandleSimulated(keys: Keys, s: C.State, w: World, c: C.Step)
    requires Abstracts(s, w) && !c.Commit?
    ensures Abstracts(C.Apply(keys, s, c), Apply(keys, w, Handle(c)))
  {
    var more := C.Apply(keys, C.State(Listed(w), [], w.used), c).inflight;
    assert C.Apply(keys, s, c).inflight == s.inflight + more;
    assert Apply(keys, w, Handle(c)).todo == w.todo + more;
  }

  lemma StartSimulated(keys: Keys, s: C.State, w: World, step: Step)
    requires Abstracts(s, w) && step.Start? && Enabled(w, step)
    ensures Abstracts(s, Apply(keys, w, step))
  {
    BagWithout(w.todo, step.i);
    BagUpdate(w.held, step.p, Some(w.todo[step.i]));
    OnlyRenameWrites(keys, w, step);
    var v := Apply(keys, w, step);
    Moved(multiset(w.todo), multiset(v.todo), multiset{w.todo[step.i]}, Bag(w.held), Bag(v.held), One(w.held[step.p]));
  }

  /** A rename is a commit of the protocol. */
  lemma RenameSimulated(keys: Keys, s: C.State, w: World, p: nat) returns (i: nat)
    requires Abstracts(s, w) && WorldInv(w) && Enabled(w, LockStep(L.Rename(p)))
    ensures C.Enabled(s, C.Commit(i)) && Abstracts(C.Apply(keys, s, C.Commit(i)), Apply(keys, w, LockStep(L.Rename(p))))
  {
    RenameCommits(keys, w, p);
    i := Unwritten(multiset(w.todo), w.held, s.inflight, p);
  }

  /** A request that a call holds is in flight, and dropping it from both keeps the rest in flight. */
  lemma Unwritten(todo: multiset<Request>, held: seq<Option<Request>>, inflight: seq<Request>, p: nat) returns (i: nat)
    requires p < |held| && held[p].Some? && todo + Bag(held) <= multiset(inflight)
    ensures i < |inflight| && inflight[i] == held[p].value
    ensures todo + Bag(held[p := None]) <= multiset(inflight[..i] + inflight[i + 1..])
  {
    var r := held[p].value;
    BagUpdate(held, p, None);
    assert Bag(held) == Bag(held[p := None]) + multiset{r} by { assert Bag(held) + One(None) == Bag(held); }
    assert r in Bag(held) && r in multiset(inflight);
    i :| 0 <= i < |inflight| && inflight[i] == r;
    BagWithout(inflight, i);
    Dropped(todo, Bag(held), Bag(held[p := None]), multiset{r}, multiset(inflight),
            multiset(inflight[..i] + inflight[i + 1..]));
  }

  /**
   Refinement: every run over the lock file is matched by a run of the protocol that ends
   with exactly the list any reader then finds in the file.
   */
  lemma {:induction false} RunRefinesProtocol(keys: Keys, w: World, steps: seq<Step>) returns (abs: seq<C.Step>)
    requires Initial(w) && !w.lock.file.Absent? && NeverCleared(steps)
    requires NeverStale(keys, w, steps) && Run(keys, w, steps).Some?
    ensures WorldInv(Run(keys, w, steps).value)
    ensures C.Run(keys, C.INITIAL, abs).Some? && Abstracts(C.Run(keys, C.INITIAL, abs).value, Run(keys, w, steps).value)
    decreases |steps|
  {
    if steps == [] {
      abs := [];
      EmptyBag(w.held);
    } else {
      var n := |steps| - 1;
      var before, step := Run(keys, w, steps[..n]).value, steps[n];
      forall k | 0 <= k < n ensures steps[..n][..k] == steps[..k] {
      }
      abs := RunRefinesProtocol(keys, w, steps[..n]);
      var s := C.Run(keys, C.INITIAL, abs).value;
      StepKeepsInv(keys, before, step);
      if step.Handle? {
        HandleSimulated(keys, s, before, step.step);
        C.Extend(keys, abs, step.step, s);
        abs := abs + [step.step];
      } else if step.Start? {
        StartSimulated(keys, s, before, step);
      } else if step.LockStep? && step.call.Rename? {
        var i := RenameSimulated(keys, s, before, step.call.p);
        C.Extend(keys, abs, C.Commit(i), s);
        abs := abs + [C.Commit(i)];
      } else {
        OnlyRenameWrites(keys, before, step);
      }
    }
  }

  // ---------- stored actions stay ----------

  lemma EvolvesOn(list: seq<Action>, mid: seq<Action>, end: seq<Action>)
    requires C.ListEvolves(list, mid) && C.ListEvolves(mid, end)
    ensures C.ListEvolves(list, end)
  {
    forall i | 0 <= i < |list| ensures C.StillIn(list[i], end) {
      assert C.StillIn(list[i], mid);
      var j :| 0 <= j < |mid| && C.Evolves(list[i], mid[j]);
      assert C.StillIn(mid[j], end);
      var k :| 0 <= k < |end| && C.Evolves(mid[j], end[k]);
      C.EvolvesTransitive(list[i], mid[j], end[k]);
    }
  }

  /** One step of a run leaves every stored action in the list, evolved as the protocol allows. */
  lemma StepEvolves(keys: Keys, w: World, steps: seq<Step>)
    requires Sound(keys) && Initial(w) && !w.lock.file.Absent? && NeverCleared(steps)
    requires NeverStale(keys, w, steps) && Run(keys, w, steps).Some?
    requires steps != []
    ensures C.ListEvolves(Listed(Run(keys, w, steps[..|steps| - 1]).value), Listed(Run(keys, w, steps).value))
  {
    var n := |steps| - 1;
    var before, step := Run(keys, w, steps[..n]).value, steps[n];
    forall k | 0 <= k < n ensures steps[..n][..k] == steps[..k] {
    }
    var abs := RunRefinesProtocol(keys, w, steps[..n]);
    if step.LockStep? && step.call.Rename? {
      var s := C.Run(keys, C.INITIAL, abs).value;
      var i := RenameSimulated(keys, s, before, step.call.p);
      C.RunKeepsInv(keys, C.INITIAL, abs);
      C.StepKeepsInv(keys, s, C.Commit(i));
    } else {
      OnlyRenameWrites(keys, before, step);
      C.SameListEvolves(Listed(before));
    }
  }

  /** What was stored after `k` steps is still stored at the end. */
  ghost predicate KeepsStored(keys: Keys, w: World, steps: seq<Step>, k: nat) {
    k <= |steps| && NeverCleared(steps) && NeverStale(keys, w, steps) && Run(keys, w, steps).Some? ==>
      var mid := Run(keys, w, steps[..k]);
      mid.Some? && C.ListEvolves(Listed(mid.value), Listed(Run(keys, w, steps).value))
  }

  lemma {:induction false} StoredActionsStay(keys: Keys, w: World, steps: seq<Step>, k: nat)
    requires Sound(keys) && Initial(w) && !w.lock.file.Absent?
    ensures KeepsStored(keys, w, steps, k)
    decreases |steps|
  {
    if k <= |steps| && NeverCleared(steps) && NeverStale(keys, w, steps) && Run(keys, w, steps).Some? {
      var end := Listed(Run(keys, w, steps).value);
      if k == |steps| {
        assert steps[..k] == steps;
        C.SameListEvolves(end);
      } else {
        var n := |steps| - 1;
        forall j | 0 <= j < n ensures steps[..n][..j] == steps[..j] {
        }
        assert steps[..n][..k] == steps[..k];
        StoredActionsStay(keys, w, steps[..n], k);
        StepEvolves(keys, w, steps);
        EvolvesOn(Listed(Run(keys, w, steps[..k]).value), Listed(Run(keys, w, steps[..n]).value), end);
      }
    }
  }

  // ---------- the write outside the lock ----------

  lemma Extend(keys: Keys, w: World, steps: seq<Step>, v: World, step: Step)
    requires Run(keys, w, steps) == Some(v) && Enabled(v, step)
    ensures Run(keys, w, steps + [step]) == Some(Apply(keys, v, step))
  {
    assert (steps + [step])[..|steps|] == steps;
  }

  const CREATE := C.SnapshotExecute("npm run build", "dev@x", true, false, true, Safe, "act_1", 0)

  const CREATED := C.NewAction("act_1", "npm run build", "dev@x", true, Safe, 0)

  /** A reader has found no file; then a handler decides to create an action and call 0 takes the request up. */
  lemma CallTakesCreate(keys: Keys, w: World) returns (steps: seq<Step>, v: World)
    requires Initial(w) && w.lock.file.Absent? && |w.held| > 0
    ensures steps == [FindAbsent, Handle(CREATE), Start(0, 0)] && Run(keys, w, steps) == Some(v)
    ensures v == w.(seeding := 1, held := w.held[0 := Some(C.CreateReq(CREATED))],
                    lock := w.lock.(procs := w.lock.procs[0 := L.Creating(Update(C.CreateReq(CREATED)), w.lock.clock)]))
  {
    var w1 := w.(seeding := 1);
    var w2 := w1.(todo := [C.CreateReq(CREATED)]);
    Extend(keys, w, [], w, FindAbsent);
    assert [] + [FindAbsent] == [FindAbsent];
    assert C.ExecuteRequests(keys, [], CREATE) == [C.CreateReq(CREATED)];
    assert Apply(keys, w1, Handle(CREATE)) == w2;
    Extend(keys, w, [FindAbsent], w1, Handle(CREATE));
    v := Apply(keys, w2, Start(0, 0));
    assert w2.todo[..0] + w2.todo[1..] == [];
    assert [FindAbsent] + [Handle(CREATE)] == [FindAbsent, Handle(CREATE)];
    Extend(keys, w, [FindAbsent, Handle(CREATE)], w2, Start(0, 0));
    steps := [FindAbsent, Handle(CREATE)] + [Start(0, 0)];
  }

  /** Call 0, alone, takes the lock and reads the list. */
  lemma CallReads(keys: Keys, w: World, steps: seq<Step>, v: World, r: Request) returns (more: seq<Step>, u: World)
    requires Run(keys, w, steps) == Some(v) && v.lock.lock.None? && |v.held| == |v.lock.procs| > 0
    requires v.lock.procs[0].Creating? && v.lock.procs[0].op == Update(r)
    ensures more == steps + [LockStep(L.TryCreate(0)), LockStep(L.Read(0))] && Run(keys, w, more) == Some(u)
    ensures u == v.(lock := L.State(v.lock.procs[0 := L.HasRead(Update(r), Listed(v))],
                                    Some(L.LockFile(0, v.lock.clock)),
                                    v.lock.file, v.lock.clock, v.lock.entered + [Update(r)]))
  {
    var s1, s2 := LockStep(L.TryCreate(0)), LockStep(L.Read(0));
    var v1 := Apply(keys, v, s1);
    u := Apply(keys, v1, s2);
    Extend(keys, w, steps, v, s1);
    Extend(keys, w, steps + [s1], v1, s2);
    more := steps + [s1] + [s2];
  }

  /** Call 0, alone, puts into the file what its request makes of the list it has read. */
  lemma CallWrites(keys: Keys, w: World, steps: seq<Step>, v: World, r: Request, seen: seq<Action>)
    returns (more: seq<Step>, u: World)
    requires Run(keys, w, steps) == Some(v) && |v.held| == |v.lock.procs| > 0 && v.held[0] == Some(r)
    requires v.lock.procs[0] == L.HasRead(Update(r), seen) && (r.CreateReq? ==> r.action.id !in v.used)
    ensures more == steps + [LockStep(L.WriteTemp(0)), LockStep(L.Rename(0))] && Run(keys, w, more) == Some(u)
    ensures u == v.(lock := v.lock.(procs := v.lock.procs[0 := L.Leaving], file := L.Holds(C.CommitTo(seen, r))),
                    held := v.held[0 := None], used := C.UsedAfter(v.used, r))
  {
    var v1 := TempFile(keys, v, r, seen);
    u := Apply(keys, v1, LockStep(L.Rename(0)));
    Extend(keys, w, steps, v, LockStep(L.WriteTemp(0)));
    Extend(keys, w, steps + [LockStep(L.WriteTemp(0))], v1, LockStep(L.Rename(0)));
    more := steps + [LockStep(L.WriteTemp(0))] + [LockStep(L.Rename(0))];
  }

  lemma TempFile(keys: Keys, v: World, r: Request, seen: seq<Action>) returns (u: World)
    requires |v.held| == |v.lock.procs| > 0 && v.lock.procs[0] == L.HasRead(Update(r), seen)
    ensures Enabled(v, LockStep(L.WriteTemp(0))) && u == Apply(keys, v, LockStep(L.WriteTemp(0)))
    ensures u == v.(lock := v.lock.(procs := v.lock.procs[0 := L.Written(Update(r), C.CommitTo(seen, r))]))
  {
    assert Update(r)(seen) == Some(C.CommitTo(seen, r));
    u := Apply(keys, v, LockStep(L.WriteTemp(0)));
  }

  /** Nobody looks at the lock's age, and nobody clears the database. */
  ghost predicate Calm(steps: seq<Step>) {
    forall k | 0 <= k < |steps| :: steps[k] != ClearDatabase && !(steps[k].LockStep? && steps[k].call.StatAge?)
  }

  lemma ActionLost(keys: Keys, w: World, steps: seq<Step>, mid: World, last: Step)
    requires Calm(steps) && Run(keys, w, steps) == Some(mid) && last == SeedEmpty && Enabled(mid, last)
    requires Listed(mid) != []
    ensures !KeepsStored(keys, w, steps + [last], |steps|)
  {
    Extend(keys, w, steps, mid, last);
    var all := steps + [last];
    assert all[..|steps|] == steps;
    assert Calm(all);
    assert !C.StillIn(Listed(mid)[0], []);
  }

  /** A reader has found no file; then an action is stored under the lock. */
  lemma StoredWhileSeeding(keys: Keys, w: World) returns (steps: seq<Step>, u: World)
    requires Initial(w) && w.lock.file.Absent? && |w.held| > 0
    ensures Calm(steps) && Run(keys, w, steps) == Some(u) && u.seeding == 1 && Listed(u) == [CREATED]
  {
    var first, v := CallTakesCreate(keys, w);
    var read, v' := CallReads(keys, w, first, v, C.CreateReq(CREATED));
    steps, u := CallWrites(keys, w, read, v', C.CreateReq(CREATED), []);
    CommitsCreated();
    CalmSteps(steps, first);
  }

  lemma CalmSteps(steps: seq<Step>, first: seq<Step>)
    requires first == [FindAbsent, Handle(CREATE), Start(0, 0)]
    requires steps ==
             first + [LockStep(L.TryCreate(0)), LockStep(L.Read(0))] + [LockStep(L.WriteTemp(0)), LockStep(L.Rename(0))]
    ensures Calm(steps)
  {
  }

  lemma CommitsCreated()
    ensures C.CommitTo([], C.CreateReq(CREATED)) == [CREATED]
  {
  }

  /**
   Something outside has removed the file: a reader finds none; an action
   is stored under the lock; then the reader's empty list replaces it.
   */
  lemma SeedLosesAction(keys: Keys, w: World) returns (steps: seq<Step>, k: nat)
    requires Initial(w) && w.lock.file.Absent? && |w.held| > 0
    ensures !KeepsStored(keys, w, steps, k)
  {
    var stored, u := StoredWhileSeeding(keys, w);
    ActionLost(keys, w, stored, u, SeedEmpty);
    steps, k := stored + [SeedEmpty], |stored|;
  }

  /** Until the database is cleared, stored actions stay in every run exactly when the file is there at the start. */
  lemma NothingDisappearsIff(keys: Keys, w: World)
    requires Sound(keys) && Initial(w) && |w.held| > 0
    ensures (forall steps: seq<Step>, k: nat :: KeepsStored(keys, w, steps, k)) <==> !w.lock.file.Absent?
  {
    if w.lock.file.Absent? {
      var steps, k := SeedLosesAction(keys, w);
    } else {
      forall steps: seq<Step>, k: nat ensures KeepsStored(keys, w, steps, k) {
        StoredActionsStay(keys, w, steps, k);
      }
    }
  }
}
