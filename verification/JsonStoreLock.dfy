/**
 The lock file under every update of the JSON store.

 Any number of processes run the same routine: create the lock file
 exclusively, read the data file, apply a modify function, write a temporary
 file, rename it over the data file, remove the lock file.  Each file-system
 call is one atomic step and the calls of different processes interleave freely.
 */
module JsonStoreLock {
  import opened Wrappers

  /** A modify function; None when it throws. */
  type Modify<!D> = D -> Option<D>

  datatype DataFile<D> = Absent | Corrupt | Holds(data: D)

  datatype LockFile = LockFile(owner: nat, mtime: int)

  /** Where a process stands in `lockAndModify`. */
  datatype Proc<!D> =
    | Idle
    | Creating(op: Modify<D>, start: int)    // about to create the lock file
    | Refused(op: Modify<D>, start: int)     // creation failed: the file exists
    | Breaking(op: Modify<D>, start: int)    // found the lock stale: about to unlink it
    | Entered(op: Modify<D>)                 // created the lock file
    | HasRead(op: Modify<D>, seen: D)
    | Written(op: Modify<D>, next: D)        // temporary file written
    | Leaving                                // about to look for the lock file
    | Unlinking                              // saw the lock file: about to unlink it

  predicate Inside<D>(p: Proc<D>) {
    p.Entered? || p.HasRead? || p.Written? || p.Leaving? || p.Unlinking?
  }

  /** `entered` lists the modify functions of the lock holders, in the order they got the lock. */
  datatype State<!D> = State(procs: seq<Proc<D>>, lock: Option<LockFile>, file: DataFile<D>, clock: int,
                             entered: seq<Modify<D>>)

  const STALE_LIMIT := 10000
  const TIMEOUT := 5000

  datatype Step<!D> =
    | Begin(p: nat, op: Modify<D>)
    | TryCreate(p: nat)
    | StatAge(p: nat)
    | BreakLock(p: nat)
    | Read(p: nat)
    | WriteTemp(p: nat)
    | Rename(p: nat)
    | LookForLock(p: nat)
    | UnlinkLock(p: nat)
    | Tick(ms: nat)

  /** What a reader of the data file gets; a missing or unparsable file stands for the default. */
  function View<D>(file: DataFile<D>, default: D): D {
    if file.Holds? then file.data else default
  }

  predicate Stale<D>(s: State<D>) {
    s.lock.Some? && s.clock - s.lock.value.mtime > STALE_LIMIT
  }

  predicate Enabled<D>(s: State<D>, step: Step<D>) {
    step.Tick? ||
    (&& step.p < |s.procs|
     && var p := s.procs[step.p];
        match step
        case Begin(_, _) => p.Idle?
        case TryCreate(_) => p.Creating?
        case StatAge(_) => p.Refused?
        case BreakLock(_) => p.Breaking?
        case Read(_) => p.Entered?
        case WriteTemp(_) => p.HasRead?
        case Rename(_) => p.Written?
        case LookForLock(_) => p.Leaving?
        case UnlinkLock(_) => p.Unlinking?)
  }

  function At<D>(s: State<D>, p: nat, pc: Proc<D>): State<D>
    requires p < |s.procs|
  {
    s.(procs := s.procs[p := pc])
  }

  /** Back to the loop head after a sleep, or out of it with the timeout error. */
  function Retry<D>(s: State<D>, op: Modify<D>, start: int): Proc<D> {
    if s.clock - start > TIMEOUT then Idle else Creating(op, start)
  }

  function Apply<D>(default: D, s: State<D>, step: Step<D>): State<D>
    requires Enabled(s, step)
  {
    match step
    case Tick(ms) => s.(clock := s.clock + ms)
    case Begin(p, op) => At(s, p, Creating(op, s.clock))
    case TryCreate(p) =>
      var Creating(op, start) := s.procs[p];
      if s.lock.Some? then At(s, p, Refused(op, start))
      else At(s, p, Entered(op)).(lock := Some(LockFile(p, s.clock)), entered := s.entered + [op])
    case StatAge(p) =>
      var Refused(op, start) := s.procs[p];
      At(s, p, if Stale(s) then Breaking(op, start) else Retry(s, op, start))
    case BreakLock(p) =>
      var Breaking(op, start) := s.procs[p];
      if s.lock.Some? then At(s, p, Creating(op, start)).(lock := None) else At(s, p, Retry(s, op, start))
    case Read(p) => At(s, p, HasRead(s.procs[p].op, View(s.file, default)))
    case WriteTemp(p) =>
      var HasRead(op, seen) := s.procs[p];
      At(s, p, if op(seen).None? then Leaving else Written(op, op(seen).value))
    case Rename(p) => At(s, p, Leaving).(file := Holds(s.procs[p].next))
    case LookForLock(p) => At(s, p, if s.lock.Some? then Unlinking else Idle)
    case UnlinkLock(p) => At(s, p, Idle).(lock := None)
  }

  function Run<D>(default: D, s: State<D>, steps: seq<Step<D>>): Option<State<D>>
    decreases |steps|
  {
    if steps == [] then Some(s)
    else
      var last := |steps| - 1;
      match Run(default, s, steps[..last])
      case None => None
      case Some(t) => if Enabled(t, steps[last]) then Some(Apply(default, t, steps[last])) else None
  }

  /** The assumption: whenever a process compares the lock's age with the limit, the lock is younger. */
  ghost predicate NeverStale<D>(default: D, s: State<D>, steps: seq<Step<D>>) {
    forall k | 0 <= k < |steps| && steps[k].StatAge? ::
      var t := Run(default, s, steps[..k]);
      t.Some? ==> !Stale(t.value)
  }

  ghost predicate Initial<D>(s: State<D>) {
    s.lock == None && s.entered == [] && forall p | 0 <= p < |s.procs| :: s.procs[p] == Idle
  }

  /** The modify functions applied one after the other; one that throws changes nothing. */
  function Fold<D>(d: D, ops: seq<Modify<D>>): D
    decreases |ops|
  {
    if ops == [] then d
    else
      var before := Fold(d, ops[..|ops| - 1]);
      var r := ops[|ops| - 1](before);
      if r.None? then before else r.value
  }

  // ---------- the invariant ----------

  /** What the process inside knows: its function is the last to have entered, and what it read is still there. */
  ghost predicate HolderInv<D>(initial: D, default: D, s: State<D>, p: Proc<D>) {
    var view := View(s.file, default);
    if p.Leaving? || p.Unlinking? then view == Fold(initial, s.entered)
    else
      && Inside(p) && s.entered != []
      && s.entered[|s.entered| - 1] == p.op
      && view == Fold(initial, s.entered[..|s.entered| - 1])
      && (p.HasRead? ==> p.seen == view)
      && (p.Written? ==> p.op(view) == Some(p.next))
  }

  /** One process inside exactly when the lock file exists: the one that created it. */
  ghost predicate Exclusive<D>(s: State<D>) {
    && (forall p | 0 <= p < |s.procs| :: !s.procs[p].Breaking?)
    && match s.lock
       case None => forall p | 0 <= p < |s.procs| :: !Inside(s.procs[p])
       case Some(l) => l.owner < |s.procs| && forall p | 0 <= p < |s.procs| :: Inside(s.procs[p]) <==> p == l.owner
  }

  /** What the data file holds, as the process inside knows it. */
  ghost predicate Content<D>(initial: D, default: D, s: State<D>)
    requires Exclusive(s)
  {
    match s.lock
    case None => View(s.file, default) == Fold(initial, s.entered)
    case Some(l) => HolderInv(initial, default, s, s.procs[l.owner])
  }

  ghost predicate Inv<D>(initial: D, default: D, s: State<D>) {
    Exclusive(s) && Content(initial, default, s)
  }

  /** The steps that create or remove the lock file, or look for it. */
  lemma LockStepKeepsExclusive<D>(default: D, s: State<D>, step: Step<D>)
    requires Exclusive(s) && Enabled(s, step)
    requires step.TryCreate? || step.BreakLock? || step.LookForLock? || step.UnlinkLock?
    ensures Exclusive(Apply(default, s, step))
  {
    var p := step.p;
    assert !s.procs[p].Breaking? && (Inside(s.procs[p]) <==> s.lock.Some? && p == s.lock.value.owner);
  }

  lemma OtherStepKeepsExclusive<D>(default: D, s: State<D>, step: Step<D>)
    requires Exclusive(s) && Enabled(s, step) && (step.StatAge? ==> !Stale(s))
    requires !(step.TryCreate? || step.BreakLock? || step.LookForLock? || step.UnlinkLock?)
    ensures Exclusive(Apply(default, s, step))
  {
    var t := Apply(default, s, step);
    assert t.lock == s.lock;
    assert forall p | 0 <= p < |s.procs| :: Inside(t.procs[p]) <==> Inside(s.procs[p]);
  }

  lemma StepKeepsExclusive<D>(default: D, s: State<D>, step: Step<D>)
    requires Exclusive(s) && Enabled(s, step) && (step.StatAge? ==> !Stale(s))
    ensures Exclusive(Apply(default, s, step))
  {
    if step.TryCreate? || step.BreakLock? || step.LookForLock? || step.UnlinkLock? {
      LockStepKeepsExclusive(default, s, step);
    } else {
      OtherStepKeepsExclusive(default, s, step);
    }
  }

  lemma CreateKeepsContent<D>(initial: D, default: D, s: State<D>, p: nat)
    requires Inv(initial, default, s) && Enabled(s, TryCreate(p))
    ensures Exclusive(Apply(default, s, TryCreate(p))) && Content(initial, default, Apply(default, s, TryCreate(p)))
  {
    StepKeepsExclusive(default, s, TryCreate(p));
    if s.lock.None? {
      assert Apply(default, s, TryCreate(p)).entered[..|s.entered|] == s.entered;
    }
  }

  lemma RenameKeepsContent<D>(initial: D, default: D, s: State<D>, p: nat)
    requires Inv(initial, default, s) && Enabled(s, Rename(p))
    ensures Exclusive(Apply(default, s, Rename(p))) && Content(initial, default, Apply(default, s, Rename(p)))
  {
    StepKeepsExclusive(default, s, Rename(p));
    assert Inside(s.procs[p]);
    assert s.entered == s.entered[..|s.entered| - 1] + [s.procs[p].op];
  }

  /** The other steps of the process inside. */
  lemma InsideKeepsContent<D>(initial: D, default: D, s: State<D>, step: Step<D>)
    requires Inv(initial, default, s) && Enabled(s, step)
    requires step.Read? || step.WriteTemp? || step.LookForLock? || step.UnlinkLock?
    ensures Exclusive(Apply(default, s, step)) && Content(initial, default, Apply(default, s, step))
  {
    StepKeepsExclusive(default, s, step);
    assert Inside(s.procs[step.p]);
  }

  /** The steps of the processes outside, and the clock. */
  lemma OutsideKeepsContent<D>(initial: D, default: D, s: State<D>, step: Step<D>)
    requires Inv(initial, default, s) && Enabled(s, step)
    requires step.Begin? || step.BreakLock? || step.Tick? || (step.StatAge? && !Stale(s))
    ensures Exclusive(Apply(default, s, step)) && Content(initial, default, Apply(default, s, step))
  {
    StepKeepsExclusive(default, s, step);
    if s.lock.Some? {
      assert Inside(s.procs[s.lock.value.owner]);
    }
  }

  lemma StepKeepsInv<D>(initial: D, default: D, s: State<D>, step: Step<D>)
    requires Inv(initial, default, s) && Enabled(s, step) && (step.StatAge? ==> !Stale(s))
    ensures Inv(initial, default, Apply(default, s, step))
  {
    match step
    case TryCreate(p) => CreateKeepsContent(initial, default, s, p);
    case Rename(p) => RenameKeepsContent(initial, default, s, p);
    case Read(_) => InsideKeepsContent(initial, default, s, step);
    case WriteTemp(_) => InsideKeepsContent(initial, default, s, step);
    case LookForLock(_) => InsideKeepsContent(initial, default, s, step);
    case UnlinkLock(_) => InsideKeepsContent(initial, default, s, step);
    case _ => OutsideKeepsContent(initial, default, s, step);
  }

  lemma {:induction false} RunKeepsInv<D>(default: D, s: State<D>, steps: seq<Step<D>>)
    requires Initial(s) && NeverStale(default, s, steps) && Run(default, s, steps).Some?
    ensures Inv(View(s.file, default), default, Run(default, s, steps).value)
    decreases |steps|
  {
    if steps != [] {
      var n := |steps| - 1;
      forall k | 0 <= k < n ensures steps[..n][..k] == steps[..k] {
      }
      RunKeepsInv(default, s, steps[..n]);
      StepKeepsInv(View(s.file, default), default, Run(default, s, steps[..n]).value, steps[n]);
    }
  }

  // ---------- main results ----------

  /** At most one process is between taking and giving back the lock. */
  lemma MutualExclusion<D>(default: D, s: State<D>, steps: seq<Step<D>>, p: nat, q: nat)
    requires Initial(s) && NeverStale(default, s, steps) && Run(default, s, steps).Some?
    requires var t := Run(default, s, steps).value;
             p < |t.procs| && q < |t.procs| && Inside(t.procs[p]) && Inside(t.procs[q])
    ensures p == q
  {
    RunKeepsInv(default, s, steps);
  }

  ghost predicate SeesCommitted<D>(initial: D, default: D, t: State<D>) {
    var seen := View(t.file, default);
    || seen == Fold(initial, t.entered)
    || (exists p | 0 <= p < |t.procs| ::
        Inside(t.procs[p]) && t.entered != [] && seen == Fold(initial, t.entered[..|t.entered| - 1]))
  }

  lemma InvSeesCommitted<D>(initial: D, default: D, t: State<D>)
    requires Inv(initial, default, t)
    ensures SeesCommitted(initial, default, t)
  {
    if t.lock.Some? {
      assert Inside(t.procs[t.lock.value.owner]);
    }
  }

  /**
   A reader that takes no lock sees, at any moment, the modify functions folded in lock order:
   all of them, or all but that of a process still inside.
   */
  lemma ReadersSeeCommittedStates<D>(default: D, s: State<D>, steps: seq<Step<D>>)
    requires Initial(s) && NeverStale(default, s, steps) && Run(default, s, steps).Some?
    ensures SeesCommitted(View(s.file, default), default, Run(default, s, steps).value)
  {
    RunKeepsInv(default, s, steps);
    InvSeesCommitted(View(s.file, default), default, Run(default, s, steps).value);
  }

  /** No update is lost: when nobody is inside, the file is the fold of every modify function that ever entered. */
  lemma QuiescentFileIsFold<D>(default: D, s: State<D>, steps: seq<Step<D>>)
    requires Initial(s) && NeverStale(default, s, steps) && Run(default, s, steps).Some?
    requires forall p | 0 <= p < |Run(default, s, steps).value.procs| :: !Inside(Run(default, s, steps).value.procs[p])
    ensures var t := Run(default, s, steps).value;
            t.lock == None && View(t.file, default) == Fold(View(s.file, default), t.entered)
  {
    RunKeepsInv(default, s, steps);
  }

  /** A process that unlinks the lock removes its own lock file, never another process's. */
  lemma UnlinksOwnLock<D>(default: D, s: State<D>, steps: seq<Step<D>>, p: nat)
    requires Initial(s) && NeverStale(default, s, steps) && Run(default, s, steps).Some?
    requires Enabled(Run(default, s, steps).value, UnlinkLock(p))
    ensures var t := Run(default, s, steps).value;
            t.lock.Some? && t.lock.value.owner == p && Apply(default, t, UnlinkLock(p)).lock == None
  {
    RunKeepsInv(default, s, steps);
  }

  predicate Waiting<D>(p: Proc<D>) {
    p.Creating? || p.Refused? || p.Breaking?
  }

  predicate Accesses<D>(step: Step<D>, p: nat) {
    (step.Read? || step.WriteTemp? || step.Rename?) && step.p == p
  }

  predicate NoAccessAfter<D>(steps: seq<Step<D>>, k: nat, p: nat) {
    forall j | k < j < |steps| :: !Accesses(steps[j], p)
  }

  /**
   A waiting process remembers the moment of the run at which it began; its modify function has not been run since.
   */
  lemma {:induction false} WaitingSince<D>(default: D, s: State<D>, steps: seq<Step<D>>, p: nat) returns (k: nat)
    requires Initial(s) && Run(default, s, steps).Some?
    requires p < |Run(default, s, steps).value.procs| && Waiting(Run(default, s, steps).value.procs[p])
    ensures k < |steps| && steps[k].Begin? && steps[k].p == p && Run(default, s, steps[..k]).Some?
    ensures Run(default, s, steps).value.procs[p].start == Run(default, s, steps[..k]).value.clock
    ensures Run(default, s, steps).value.procs[p].op == steps[k].op
    ensures NoAccessAfter(steps, k, p)
    decreases |steps|
  {
    var n := |steps| - 1;
    var before := Run(default, s, steps[..n]).value;
    StillWaiting(default, before, steps[n], p);
    if steps[n].Begin? && steps[n].p == p {
      k := n;
    } else {
      k := WaitingSince(default, s, steps[..n], p);
      assert steps[..n][..k] == steps[..k];
      NoAccessExtends(steps, k, p);
    }
  }

  lemma NoAccessExtends<D>(steps: seq<Step<D>>, k: nat, p: nat)
    requires steps != [] && NoAccessAfter(steps[..|steps| - 1], k, p) && !Accesses(steps[|steps| - 1], p)
    ensures NoAccessAfter(steps, k, p)
  {
    var before := steps[..|steps| - 1];
    assert forall j | 0 <= j < |before| :: before[j] == steps[j];
  }

  lemma StillWaiting<D>(default: D, s: State<D>, step: Step<D>, p: nat)
    requires Enabled(s, step) && p < |s.procs| && Waiting(Apply(default, s, step).procs[p])
    ensures var now := Apply(default, s, step).procs[p];
            if step.Begin? && step.p == p then now.start == s.clock && now.op == step.op
            else
              && Waiting(s.procs[p]) && s.procs[p].start == now.start && s.procs[p].op == now.op
              && !Accesses(step, p)
  {
  }

  /** A call fails with the timeout error only when it has waited for longer than the limit since it began. */
  lemma TimesOutOnlyAfterLimit<D>(default: D, s: State<D>, steps: seq<Step<D>>, step: Step<D>, p: nat) returns (k: nat)
    requires Initial(s) && Run(default, s, steps).Some?
    requires var t := Run(default, s, steps).value;
             Enabled(t, step) && p < |t.procs| && Waiting(t.procs[p]) && Apply(default, t, step).procs[p].Idle?
    ensures k < |steps| && steps[k].Begin? && steps[k].p == p && Run(default, s, steps[..k]).Some?
    ensures Run(default, s, steps).value.clock - Run(default, s, steps[..k]).value.clock > TIMEOUT
  {
    k := WaitingSince(default, s, steps, p);
  }

  lemma {:induction false} RunFront<D>(default: D, s: State<D>, first: Step<D>, rest: seq<Step<D>>)
    requires Enabled(s, first)
    ensures Run(default, s, [first] + rest) == Run(default, Apply(default, s, first), rest)
    decreases |rest|
  {
    var steps := [first] + rest;
    if rest == [] {
      assert steps[..0] == [];
    } else {
      RunFront(default, s, first, rest[..|rest| - 1]);
      assert steps[..|steps| - 1] == [first] + rest[..|rest| - 1];
    }
  }

  /** What the process inside does next. */
  function NextStep<D>(pc: Proc<D>, p: nat): Step<D>
    requires Inside(pc)
  {
    match pc
    case Entered(_) => Read(p)
    case HasRead(_, _) => WriteTemp(p)
    case Written(_, _) => Rename(p)
    case Leaving => LookForLock(p)
    case Unlinking => UnlinkLock(p)
  }

  function StepsLeft<D>(pc: Proc<D>): nat {
    match pc
    case Entered(_) => 5
    case HasRead(_, _) => 4
    case Written(_, _) => 3
    case Leaving => 2
    case Unlinking => 1
    case _ => 0
  }

  /** No deadlock: whoever holds the lock can always give it back by at most five steps of its own. */
  lemma {:induction false} HolderReleases<D>(initial: D, default: D, s: State<D>) returns (steps: seq<Step<D>>)
    requires Inv(initial, default, s) && s.lock.Some?
    ensures |steps| <= StepsLeft(s.procs[s.lock.value.owner]) <= 5
    ensures forall k | 0 <= k < |steps| :: !steps[k].Tick? && steps[k].p == s.lock.value.owner
    ensures Run(default, s, steps).Some? && Run(default, s, steps).value.lock.None?
    decreases StepsLeft(s.procs[s.lock.value.owner])
  {
    var p := s.lock.value.owner;
    var step := NextStep(s.procs[p], p);
    StepKeepsInv(initial, default, s, step);
    var t := Apply(default, s, step);
    var rest: seq<Step<D>> := [];
    if t.lock.Some? {
      rest := HolderReleases(initial, default, t);
    }
    RunFront(default, s, step, rest);
    steps := [step] + rest;
  }

  // ---------- exactly when a waiting process gets in beside the holder ----------

  /** Steps of `q` alone, while the clock stands still. */
  ghost predicate OwnSteps<D>(steps: seq<Step<D>>, q: nat) {
    forall k | 0 <= k < |steps| :: !steps[k].Tick? && steps[k].p == q
  }

  /** `q` is inside, and so is another process. */
  ghost predicate InsideBeside<D>(s: State<D>, q: nat) {
    q < |s.procs| && Inside(s.procs[q]) && exists p | 0 <= p < |s.procs| :: p != q && Inside(s.procs[p])
  }

  /** By steps of its own `q` gets to where it is inside together with another process. */
  ghost predicate CanEnterBeside<D(!new)>(default: D, s: State<D>, q: nat) {
    exists steps: seq<Step<D>> ::
      OwnSteps(steps, q) && Run(default, s, steps).Some? && InsideBeside(Run(default, s, steps).value, q)
  }

  /** What steps of `q` alone leave as it was in `s`, as long as the lock is not stale. */
  ghost predicate OthersUntouched<D>(s: State<D>, t: State<D>, q: nat) {
    && |t.procs| == |s.procs| && t.clock == s.clock
    && (forall p | 0 <= p < |s.procs| && p != q :: t.procs[p] == s.procs[p])
    && (s.lock.Some? ==> t.lock == s.lock && q < |t.procs| && !Inside(t.procs[q]) && !t.procs[q].Breaking?)
  }

  lemma {:induction false} OwnStepsLeaveOthers<D>(default: D, s: State<D>, steps: seq<Step<D>>, q: nat)
    requires Exclusive(s) && !Stale(s) && q < |s.procs| && !Inside(s.procs[q]) && OwnSteps(steps, q)
    requires Run(default, s, steps).Some?
    ensures OthersUntouched(s, Run(default, s, steps).value, q)
    decreases |steps|
  {
    if steps != [] {
      var n := |steps| - 1;
      assert OwnSteps(steps[..n], q);
      OwnStepsLeaveOthers(default, s, steps[..n], q);
      OwnStepLeavesOthers(default, s, Run(default, s, steps[..n]).value, steps[n], q);
    }
  }

  lemma OwnStepLeavesOthers<D>(default: D, s: State<D>, t: State<D>, step: Step<D>, q: nat)
    requires OthersUntouched(s, t, q) && !Stale(s) && Enabled(t, step) && !step.Tick? && step.p == q
    ensures OthersUntouched(s, Apply(default, t, step), q)
  {
  }

  /** A waiter that finds the lock stale removes it and enters, by three steps of its own. */
  lemma StaleLockIsBroken<D>(default: D, s: State<D>, q: nat) returns (steps: seq<Step<D>>)
    requires Exclusive(s) && q < |s.procs| && s.procs[q].Refused? && Stale(s)
    ensures steps == [StatAge(q), BreakLock(q), TryCreate(q)] && Run(default, s, steps).Some?
    ensures InsideBeside(Run(default, s, steps).value, q)
  {
    var s1, s2, s3 := BreaksIn(default, s, q);
    RunThree(default, s, StatAge(q), s1, BreakLock(q), s2, TryCreate(q), s3);
    steps := [StatAge(q), BreakLock(q), TryCreate(q)];
  }

  lemma RunThree<D>(default: D, s: State<D>, a: Step<D>, s1: State<D>, b: Step<D>, s2: State<D>, c: Step<D>,
                    s3: State<D>)
    requires Enabled(s, a) && s1 == Apply(default, s, a) && Enabled(s1, b) && s2 == Apply(default, s1, b)
    requires Enabled(s2, c) && s3 == Apply(default, s2, c)
    ensures Run(default, s, [a, b, c]) == Some(s3)
  {
    assert [a][..0] == [] && [a, b][..1] == [a] && [a, b, c][..2] == [a, b];
    assert Run(default, s, [a]) == Some(s1);
    assert Run(default, s, [a, b]) == Some(s2);
  }

  /** The three states it goes through. */
  lemma BreaksIn<D>(default: D, s: State<D>, q: nat) returns (s1: State<D>, s2: State<D>, s3: State<D>)
    requires Exclusive(s) && q < |s.procs| && s.procs[q].Refused? && Stale(s)
    ensures Enabled(s, StatAge(q)) && s1 == Apply(default, s, StatAge(q))
    ensures Enabled(s1, BreakLock(q)) && s2 == Apply(default, s1, BreakLock(q))
    ensures Enabled(s2, TryCreate(q)) && s3 == Apply(default, s2, TryCreate(q))
    ensures InsideBeside(s3, q)
  {
    s1 := Apply(default, s, StatAge(q));
    s2 := Apply(default, s1, BreakLock(q));
    s3 := Apply(default, s2, TryCreate(q));
    var holder := s.lock.value.owner;
    assert Inside(s.procs[holder]) && holder != q;
    assert Inside(s3.procs[holder]);
  }

  lemma ExtendRun<D>(default: D, s: State<D>, steps: seq<Step<D>>, t: State<D>, step: Step<D>)
    requires Run(default, s, steps) == Some(t) && Enabled(t, step)
    ensures Run(default, s, steps + [step]) == Some(Apply(default, t, step))
  {
    assert (steps + [step])[..|steps|] == steps;
  }

  /**
   Exclusion fails exactly when it can: in a state where at most one process is inside, a refused waiter
   gets in beside the holder by steps of its own if and only if the lock file is older than the limit.
   */
  lemma EntersBesideIffStale<D(!new)>(default: D, s: State<D>, q: nat)
    requires Exclusive(s) && q < |s.procs| && s.procs[q].Refused?
    ensures CanEnterBeside(default, s, q) <==> Stale(s)
  {
    if Stale(s) {
      var steps := StaleLockIsBroken(default, s, q);
    } else {
      forall steps: seq<Step<D>> | OwnSteps(steps, q) && Run(default, s, steps).Some?
        ensures !InsideBeside(Run(default, s, steps).value, q)
      {
        OwnStepsLeaveOthers(default, s, steps, q);
      }
    }
  }

  // ---------- what follows from a stale lock ----------

  function Increment(n: int): Option<int> { Some(n + 1) }

  /** One more step of a run, given the state it leads to. */
  lemma Extend(s: State<int>, steps: seq<Step<int>>, t: State<int>, step: Step<int>, u: State<int>)
    returns (longer: seq<Step<int>>)
    requires Run(0, s, steps) == Some(t) && Enabled(t, step) && Apply(0, t, step) == u
    ensures longer == steps + [step] && Run(0, s, longer) == Some(u)
  {
    longer := steps + [step];
    ExtendRun(0, s, steps, t, step);
  }

  /** While process 0 is inside and pauses, process 1 finds the lock stale, removes it and enters. */
  lemma StaleLockAdmitsSecond(s: State<int>) returns (steps: seq<Step<int>>)
    requires s == State([Idle, Idle], None, Holds(0), 0, [])
    ensures Run(0, s, steps) ==
            Some(State([Entered(Increment), Entered(Increment)], Some(LockFile(1, 10001)), Holds(0), 10001,
                       [Increment, Increment]))
  {
    var inc := Increment;
    var s1 := State([Creating(inc, 0), Idle], None, Holds(0), 0, []);
    var s2 := State([Entered(inc), Idle], Some(LockFile(0, 0)), Holds(0), 0, [inc]);
    var s3 := State([Entered(inc), Creating(inc, 0)], Some(LockFile(0, 0)), Holds(0), 0, [inc]);
    var s4 := State([Entered(inc), Refused(inc, 0)], Some(LockFile(0, 0)), Holds(0), 0, [inc]);
    var s5 := s4.(clock := 10001);
    var s6 := State([Entered(inc), Breaking(inc, 0)], Some(LockFile(0, 0)), Holds(0), 10001, [inc]);
    var s7 := State([Entered(inc), Creating(inc, 0)], None, Holds(0), 10001, [inc]);
    var s8 := State([Entered(inc), Entered(inc)], Some(LockFile(1, 10001)), Holds(0), 10001, [inc, inc]);
    steps := Extend(s, [], s, Begin(0, inc), s1);
    steps := Extend(s, steps, s1, TryCreate(0), s2);
    steps := Extend(s, steps, s2, Begin(1, inc), s3);
    steps := Extend(s, steps, s3, TryCreate(1), s4);
    steps := Extend(s, steps, s4, Tick(10001), s5);
    steps := Extend(s, steps, s5, StatAge(1), s6);
    steps := Extend(s, steps, s6, BreakLock(1), s7);
    steps := Extend(s, steps, s7, TryCreate(1), s8);
  }

  /**
   A holder that pauses for longer than the limit loses its lock to a waiting process: both end up
   inside, and of their two increments one is lost.
   */
  lemma StaleLockLosesUpdate() returns (s: State<int>, steps: seq<Step<int>>)
    ensures Initial(s) && s.file == Holds(0) && Run(0, s, steps).Some?
    ensures var t := Run(0, s, steps).value;
            |t.procs| == 2 && Inside(t.procs[0]) && Inside(t.procs[1]) && t.file == Holds(1) && Fold(0, t.entered) == 2
  {
    var inc := Increment;
    s := State([Idle, Idle], None, Holds(0), 0, []);
    steps := StaleLockAdmitsSecond(s);
    var s0 := State([Entered(inc), Entered(inc)], Some(LockFile(1, 10001)), Holds(0), 10001, [inc, inc]);
    var s1 := s0.(procs := [HasRead(inc, 0), Entered(inc)]);
    var s2 := s0.(procs := [HasRead(inc, 0), HasRead(inc, 0)]);
    var s3 := s0.(procs := [Written(inc, 1), HasRead(inc, 0)]);
    var s4 := s0.(procs := [Written(inc, 1), Written(inc, 1)]);
    var s5 := s0.(procs := [Leaving, Written(inc, 1)], file := Holds(1));
    var s6 := s0.(procs := [Leaving, Leaving], file := Holds(1));
    steps := Extend(s, steps, s0, Read(0), s1);
    steps := Extend(s, steps, s1, Read(1), s2);
    steps := Extend(s, steps, s2, WriteTemp(0), s3);
    steps := Extend(s, steps, s3, WriteTemp(1), s4);
    steps := Extend(s, steps, s4, Rename(0), s5);
    steps := Extend(s, steps, s5, Rename(1), s6);
    assert [inc, inc][..1] == [inc] && [inc][..0] == [];
    assert Fold(0, [inc]) == 1;
  }
}
