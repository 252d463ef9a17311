/**
 Evaluating conditions and combining the rules of a policy into a decision.

 A rule's condition comes out true, false or as an evaluation error.  Four
 programs combine these outcomes: the gateway's early-exit engine, its full-scan
 simulator, the daemon and the wasm wrapper around the Cedar library.
 */
module CedarEngine {
  import opened Wrappers
  import opened CedarLiterals
  import opened CedarParser
  import CedarGlob
  import RelativePath
  import Text

  /** The values a request can carry; an object lists its own properties. */
  datatype Value =
    | Undefined
    | Null
    | Bool(b: bool)
    | Number(n: real)
    | Str(s: string)
    | Object(fields: map<string, Value>)

  datatype Outcome = True | False | Error

  datatype Effect = Permit | Forbid

  datatype Rule = Rule(effect: Effect, ast: Ast)

  datatype Verdict = Verdict(effect: Effect, outcome: Outcome)

  datatype Decision = Allow | Deny

  // ---------- evaluating one condition ----------

  function Get(v: Value, name: string): Value {
    if v.Object? && name in v.fields then v.fields[name] else Undefined
  }

  function GetPath(v: Value, parts: seq<string>): Value
    decreases |parts|
  {
    if parts == [] then v else if !v.Object? then Undefined else GetPath(Get(v, parts[0]), parts[1..])
  }

  function PathValue(ctx: Value, path: string): Value {
    GetPath(ctx, Text.Split(path, '.'))
  }

  function Truth(b: bool): Outcome {
    if b then True else False
  }

  predicate StrictlyEquals(v: Value, lit: Literal) {
    match lit
    case StringLit(text) => v == Str(text)
    case NumberLit(digits) => IsNumber(digits) && v == Number(NumberValue(digits))
    case BoolLit(b) => v == Bool(b)
    case NullLit => v == Null
    case ListLit(_) => false
  }

  predicate Holds(op: Comparison, a: real, b: real) {
    match op
    case Greater => a > b
    case Less => a < b
    case GreaterOrEqual => a >= b
    case LessOrEqual => a <= b
  }

  predicate IsLike(s: string, pattern: string) {
    var regex := CedarGlob.ReadRegex(CedarGlob.RegexText(pattern));
    regex.Some? && CedarGlob.Test(regex.value, s)
  }

  function Evaluate(e: Ast, ctx: Value): Outcome {
    match e
    case And(l, r) => if Evaluate(l, ctx) == True then Evaluate(r, ctx) else Evaluate(l, ctx)
    case Or(l, r) => if Evaluate(l, ctx) == False then Evaluate(r, ctx) else Evaluate(l, ctx)
    case Not(x) =>
      var o := Evaluate(x, ctx);
      if o == True then False else if o == False then True else Error
    case Has(path, prop) =>
      var v := PathValue(ctx, path);
      if v == Undefined || v == Null then False else if v.Object? then Truth(prop in v.fields) else Error
    case In(path, values) => var v := PathValue(ctx, path); Truth(v.Str? && v.s in values)
    case Like(path, pattern) => var v := PathValue(ctx, path); Truth(v.Str? && IsLike(v.s, pattern))
    case Contains(path, substring) => var v := PathValue(ctx, path); Truth(v.Str? && Text.Includes(v.s, substring))
    case Equals(path, value) => Truth(StrictlyEquals(PathValue(ctx, path), value))
    case Compare(op, path, number) =>
      var v := PathValue(ctx, path);
      Truth(v.Number? && IsNumber(number) && Holds(op, v.n, NumberValue(number)))
    case Attribute(path) => Truth(PathValue(ctx, path) == Bool(true))
  }

  /** Every `has` of the condition looks into an object, or finds nothing there. */
  ghost predicate HasOnlyObjects(e: Ast, ctx: Value) {
    match e
    case And(l, r) => HasOnlyObjects(l, ctx) && HasOnlyObjects(r, ctx)
    case Or(l, r) => HasOnlyObjects(l, ctx) && HasOnlyObjects(r, ctx)
    case Not(x) => HasOnlyObjects(x, ctx)
    case Has(path, _) => var v := PathValue(ctx, path); v == Undefined || v == Null || v.Object?
    case _ => true
  }

  lemma {:induction false} ErrorsComeFromHas(e: Ast, ctx: Value)
    requires HasOnlyObjects(e, ctx)
    ensures Evaluate(e, ctx) != Error
  {
    match e
    case And(l, r) => ErrorsComeFromHas(l, ctx); ErrorsComeFromHas(r, ctx);
    case Or(l, r) => ErrorsComeFromHas(l, ctx); ErrorsComeFromHas(r, ctx);
    case Not(x) => ErrorsComeFromHas(x, ctx);
    case _ =>
  }

  /** The tests that evaluation comes to, in order: short circuits leave out the rest of a chain. */
  function Reached(e: Ast, ctx: Value): seq<Ast> {
    match e
    case And(l, r) => Reached(l, ctx) + (if Evaluate(l, ctx) == True then Reached(r, ctx) else [])
    case Or(l, r) => Reached(l, ctx) + (if Evaluate(l, ctx) == False then Reached(r, ctx) else [])
    case Not(x) => Reached(x, ctx)
    case _ => [e]
  }

  /** A `has` on a value that is neither missing nor an object: the only test that throws. */
  predicate LooksIntoPrimitive(test: Ast, ctx: Value) {
    test.Has? && var v := PathValue(ctx, test.path); v != Undefined && v != Null && !v.Object?
  }

  /** Only the last of these tests may throw, and it does so exactly if `errs`. */
  ghost predicate ThrowsAtEnd(tests: seq<Ast>, ctx: Value, errs: bool) {
    && tests != []
    && (errs <==> LooksIntoPrimitive(tests[|tests| - 1], ctx))
    && forall i | 0 <= i < |tests| - 1 :: !LooksIntoPrimitive(tests[i], ctx)
  }

  lemma ThrowsInChain(first: seq<Ast>, more: seq<Ast>, ctx: Value, errs: bool)
    requires ThrowsAtEnd(first, ctx, false) && ThrowsAtEnd(more, ctx, errs)
    ensures ThrowsAtEnd(first + more, ctx, errs)
  {
    var all := first + more;
    assert all[|all| - 1] == more[|more| - 1];
  }

  lemma NothingMore(first: seq<Ast>)
    ensures first + [] == first
  {
  }

  /** Evaluation errs exactly if it comes to a `has` that looks into a primitive value, and it stops there. */
  lemma {:induction false} ErrsIffLooksIntoPrimitive(e: Ast, ctx: Value)
    ensures ThrowsAtEnd(Reached(e, ctx), ctx, Evaluate(e, ctx) == Error)
    decreases e, 1
  {
    match e
    case And(l, r) => ChainErrs(e, l, r, ctx, True);
    case Or(l, r) => ChainErrs(e, l, r, ctx, False);
    case Not(x) => ErrsIffLooksIntoPrimitive(x, ctx);
    case _ =>
  }

  lemma {:induction false} ChainErrs(e: Ast, l: Ast, r: Ast, ctx: Value, on: Outcome)
    requires (e == And(l, r) || e == Or(l, r)) && on != Error
    ensures ThrowsAtEnd(Reached(l, ctx) + (if Evaluate(l, ctx) == on then Reached(r, ctx) else []), ctx,
                        (if Evaluate(l, ctx) == on then Evaluate(r, ctx) else Evaluate(l, ctx)) == Error)
    decreases e, 0
  {
    ErrsIffLooksIntoPrimitive(l, ctx);
    if Evaluate(l, ctx) == on {
      ErrsIffLooksIntoPrimitive(r, ctx);
      ThrowsInChain(Reached(l, ctx), Reached(r, ctx), ctx, Evaluate(r, ctx) == Error);
    } else {
      NothingMore(Reached(l, ctx));
    }
  }

  /** A `like` condition is true exactly on the strings of its glob language. */
  lemma LikeMeansGlob(path: string, pattern: string, ctx: Value)
    ensures Evaluate(Like(path, pattern), ctx) == True <==>
            PathValue(ctx, path).Str? && CedarGlob.GlobMatches(pattern, PathValue(ctx, path).s)
  {
    if PathValue(ctx, path).Str? {
      CedarGlob.GlobCompilesCorrectly(pattern, PathValue(ctx, path).s);
    }
  }

  /**
   `contains "t"` and `like "*t*"` agree on strings without line terminators; with them, `like` may only refuse more.
   */
  lemma ContainsIsLike(path: string, t: string, ctx: Value)
    requires '*' !in t
    ensures Evaluate(Like(path, "*" + t + "*"), ctx) == True ==> Evaluate(Contains(path, t), ctx) == True
    ensures PathValue(ctx, path).Str? && CedarGlob.NoLineTerminators(PathValue(ctx, path).s) ==>
              Evaluate(Like(path, "*" + t + "*"), ctx) == Evaluate(Contains(path, t), ctx)
  {
    LikeMeansGlob(path, "*" + t + "*", ctx);
    if PathValue(ctx, path).Str? {
      CedarGlob.SubstringIsIncluded(t, PathValue(ctx, path).s);
    }
  }

  /**
   Of `<`, `==` and `>` exactly one holds of a number and none of anything
   else; `<=` and `>=` are their unions, and negation turns them round.
   */
  lemma ComparisonsCohere(path: string, number: string, ctx: Value)
    requires IsNumber(number)
    ensures var less := Evaluate(Compare(Less, path, number), ctx) == True;
            var equal := Evaluate(Equals(path, NumberLit(number)), ctx) == True;
            var greater := Evaluate(Compare(Greater, path, number), ctx) == True;
            && !(less && equal) && !(less && greater) && !(equal && greater)
            && (less || equal || greater <==> PathValue(ctx, path).Number?)
            && (Evaluate(Compare(LessOrEqual, path, number), ctx) == True <==> less || equal)
            && (Evaluate(Compare(GreaterOrEqual, path, number), ctx) == True <==> greater || equal)
            && (Evaluate(Not(Compare(Greater, path, number)), ctx) == True <==>
                less || equal || !PathValue(ctx, path).Number?)
  {
    assert Evaluate(Not(Compare(Greater, path, number)), ctx) ==
           if Evaluate(Compare(Greater, path, number), ctx) == True then False else True;
  }

  /** Pushing every negation down to the tests. */
  function PushedDown(e: Ast, negated: bool): Ast {
    match e
    case Not(x) => PushedDown(x, !negated)
    case And(l, r) =>
      if negated then Or(PushedDown(l, true), PushedDown(r, true)) else And(PushedDown(l, false), PushedDown(r, false))
    case Or(l, r) =>
      if negated then And(PushedDown(l, true), PushedDown(r, true)) else Or(PushedDown(l, false), PushedDown(r, false))
    case _ => if negated then Not(e) else e
  }

  /** De Morgan's laws hold of whole conditions, errors and short circuits included. */
  lemma {:induction false} PushingNegationsKeepsMeaning(e: Ast, ctx: Value, negated: bool)
    ensures Evaluate(PushedDown(e, negated), ctx) == Evaluate(if negated then Not(e) else e, ctx)
  {
    match e
    case Not(x) => PushingNegationsKeepsMeaning(x, ctx, !negated);
    case And(l, r) => PushingNegationsKeepsMeaning(l, ctx, negated); PushingNegationsKeepsMeaning(r, ctx, negated);
    case Or(l, r) => PushingNegationsKeepsMeaning(l, ctx, negated); PushingNegationsKeepsMeaning(r, ctx, negated);
    case _ =>
  }

  // ---------- requests ----------

  datatype Request = Request(principal: string, tool: string, args: map<string, Value>, context: map<string, Value>)

  /** `normalizeEvalArgs`: a string `path` is replaced by its canonical form; None when it has none. */
  function NormalizeArgs(args: map<string, Value>): Option<map<string, Value>> {
    if "path" !in args || !args["path"].Str? then Some(args)
    else
      match RelativePath.Canonical(args["path"].s)
      case None => None
      case Some(c) => Some(args["path" := Str(c)])
  }

  function EvalContext(r: Request, args: map<string, Value>): Value {
    Object(map["principal" := Str(r.principal),
               "resource" := Object(map["tool_name" := Str(r.tool), "args" := Object(args)]),
               "context" := Object(r.context)])
  }

  function Verdicts(rules: seq<Rule>, ctx: Value): (vs: seq<Verdict>)
    ensures |vs| == |rules|
    ensures forall i | 0 <= i < |rules| :: vs[i] == Verdict(rules[i].effect, Evaluate(rules[i].ast, ctx))
  {
    seq(|rules|, i requires 0 <= i < |rules| => Verdict(rules[i].effect, Evaluate(rules[i].ast, ctx)))
  }

  // ---------- the meaning of a policy ----------

  /** No rule errs, no forbid applies, some permit applies. */
  predicate Grants(vs: seq<Verdict>) {
    && (forall i | 0 <= i < |vs| :: vs[i].outcome != Error)
    && Verdict(Forbid, True) !in vs
    && Verdict(Permit, True) in vs
  }

  function Meaning(rules: seq<Rule>, r: Request): Decision {
    match NormalizeArgs(r.args)
    case None => Deny
    case Some(args) => if Grants(Verdicts(rules, EvalContext(r, args))) then Allow else Deny
  }

  // ---------- the two engines of the gateway ----------

  /** The early-exit loop, with its flag so far. */
  function EarlyExit(vs: seq<Verdict>, permitted: bool): Decision {
    if vs == [] then (if permitted then Allow else Deny)
    else if vs[0].outcome == Error then Deny
    else if vs[0] == Verdict(Forbid, True) then Deny
    else EarlyExit(vs[1..], permitted || vs[0] == Verdict(Permit, True))
  }

  /** The full scan, counting what applied. */
  function FullScan(vs: seq<Verdict>, permits: nat, forbids: nat): Decision {
    if vs == [] then (if permits > 0 && forbids == 0 then Allow else Deny)
    else if vs[0].outcome == Error then Deny
    else FullScan(vs[1..],
                  permits + (if vs[0] == Verdict(Permit, True) then 1 else 0),
                  forbids + (if vs[0] == Verdict(Forbid, True) then 1 else 0))
  }

  lemma EarlyExitStep(vs: seq<Verdict>, i: nat, permitted: bool)
    requires i < |vs|
    ensures EarlyExit(vs[i..], permitted) ==
            if vs[i].outcome == Error || vs[i] == Verdict(Forbid, True) then Deny
            else EarlyExit(vs[i + 1..], permitted || vs[i] == Verdict(Permit, True))
  {
    assert vs[i..][0] == vs[i] && vs[i..][1..] == vs[i + 1..];
  }

  lemma FullScanStep(vs: seq<Verdict>, i: nat, permits: nat, forbids: nat)
    requires i < |vs|
    ensures FullScan(vs[i..], permits, forbids) ==
            if vs[i].outcome == Error then Deny
            else FullScan(vs[i + 1..],
                          permits + (if vs[i] == Verdict(Permit, True) then 1 else 0),
                          forbids + (if vs[i] == Verdict(Forbid, True) then 1 else 0))
  {
    assert vs[i..][0] == vs[i] && vs[i..][1..] == vs[i + 1..];
  }

  method EvaluateTSEngine(rules: seq<Rule>, r: Request) returns (d: Decision)
    ensures d == Meaning(rules, r)
    ensures NormalizeArgs(r.args).Some? ==>
              d == EarlyExit(Verdicts(rules, EvalContext(r, NormalizeArgs(r.args).value)), false)
  {
    var normalized := NormalizeArgs(r.args);
    if normalized.None? {
      return Deny;
    }
    var ctx := EvalContext(r, normalized.value);
    ghost var vs := Verdicts(rules, ctx);
    EarlyExitMeans(vs, false);
    d := RunRules(rules, ctx);
  }

  /** The loop over the rules; a true forbid or an error ends it. */
  method RunRules(rules: seq<Rule>, ctx: Value) returns (d: Decision)
    ensures d == EarlyExit(Verdicts(rules, ctx), false)
  {
    ghost var vs := Verdicts(rules, ctx);
    var permitted, forbidden := false, false;
    assert vs[0..] == vs;
    for i := 0 to |rules|
      invariant !forbidden
      invariant EarlyExit(vs[i..], permitted) == EarlyExit(vs, false)
    {
      EarlyExitStep(vs, i, permitted);
      var outcome := Evaluate(rules[i].ast, ctx);
      if outcome == Error {
        return Deny;
      }
      if outcome == True {
        if rules[i].effect == Forbid {
          forbidden := true;
          break;
        } else {
          permitted := true;
        }
      }
    }
    d := if permitted && !forbidden then Allow else Deny;
  }

  /** The positions of the rules with this verdict, in order. */
  function Positions(vs: seq<Verdict>, v: Verdict): seq<nat> {
    if vs == [] then []
    else
      var n := |vs| - 1;
      Positions(vs[..n], v) + (if vs[n] == v then [n] else [])
  }

  /** What one more verdict adds to the positions collected so far. */
  lemma Collected(vs: seq<Verdict>, i: nat, v: Verdict, before: seq<nat>, after: seq<nat>)
    requires i < |vs| && before == Positions(vs[..i], v)
    requires after == if vs[i] == v then before + [i] else before
    ensures after == Positions(vs[..i + 1], v)
  {
    assert vs[..i + 1][..i] == vs[..i];
  }

  /** `stop` is where the first rule errs, or the number of rules. */
  ghost predicate FirstError(vs: seq<Verdict>, stop: nat) {
    && stop <= |vs|
    && (forall k | 0 <= k < stop :: vs[k].outcome != Error)
    && (stop < |vs| ==> vs[stop].outcome == Error)
  }

  /** One scan over all rules, up to the first that errs; it collects the rules that applied before. */
  method ScanRules(rules: seq<Rule>, ctx: Value) returns (stop: nat, permits: seq<nat>, forbids: seq<nat>)
    ensures FullScan(Verdicts(rules, ctx), 0, 0) ==
            if stop == |rules| && permits != [] && forbids == [] then Allow else Deny
    ensures FirstError(Verdicts(rules, ctx), stop)
    ensures permits == Positions(Verdicts(rules, ctx)[..stop], Verdict(Permit, True))
    ensures forbids == Positions(Verdicts(rules, ctx)[..stop], Verdict(Forbid, True))
  {
    permits, forbids := [], [];
    ghost var vs := Verdicts(rules, ctx);
    assert vs[0..] == vs;
    for i := 0 to |rules|
      invariant FullScan(vs[i..], |permits|, |forbids|) == FullScan(vs, 0, 0)
      invariant permits == Positions(vs[..i], Verdict(Permit, True))
      invariant forbids == Positions(vs[..i], Verdict(Forbid, True))
      invariant forall k | 0 <= k < i :: vs[k].outcome != Error
    {
      FullScanStep(vs, i, |permits|, |forbids|);
      var outcome := Evaluate(rules[i].ast, ctx);
      assert vs[i] == Verdict(rules[i].effect, outcome);
      if outcome == Error {
        return i, permits, forbids;
      }
      ghost var permits0, forbids0 := permits, forbids;
      if outcome == True {
        if rules[i].effect == Forbid {
          forbids := forbids + [i];
        } else {
          permits := permits + [i];
        }
      }
      Collected(vs, i, Verdict(Permit, True), permits0, permits);
      Collected(vs, i, Verdict(Forbid, True), forbids0, forbids);
    }
    stop := |rules|;
  }

  /** The simulator keeps scanning after a forbid; it also reports the rules that applied, by their position. */
  method EvaluateSimulator(rules: seq<Rule>, r: Request) returns (d: Decision, permits: seq<nat>, forbids: seq<nat>)
    ensures d == if ValidContext(r.context) then Meaning(rules, r) else Deny
    ensures ValidContext(r.context) && NormalizeArgs(r.args).Some? ==>
              d == FullScan(Verdicts(rules, EvalContext(r, NormalizeArgs(r.args).value)), 0, 0)
    ensures ValidContext(r.context) && NormalizeArgs(r.args).Some? ==>
              var vs := Verdicts(rules, EvalContext(r, NormalizeArgs(r.args).value));
              exists stop: nat | FirstError(vs, stop) ::
                permits == Positions(vs[..stop], Verdict(Permit, True)) &&
                forbids == Positions(vs[..stop], Verdict(Forbid, True))
  {
    if !ValidContext(r.context) {
      return Deny, [], [];
    }
    var normalized := NormalizeArgs(r.args);
    if normalized.None? {
      return Deny, [], [];
    }
    var ctx := EvalContext(r, normalized.value);
    FullScanMeans(Verdicts(rules, ctx), 0, 0);
    var stop: nat;
    stop, permits, forbids := ScanRules(rules, ctx);
    if stop < |rules| {
      return Deny, permits, forbids;
    }
    d := if permits != [] && forbids == [] then Allow else Deny;
  }

  // ---------- the context schema ----------

  predicate IsBoolOrMissing(v: Value) { v.Bool? || v.Undefined? }
  predicate IsNumberOrMissing(v: Value) { v.Number? || v.Undefined? }
  predicate IsStringOrMissing(v: Value) { v.Str? || v.Undefined? }

  /** `validateContextSchema`: the known flags of the three sections have the declared types. */
  predicate ValidContext(context: map<string, Value>) {
    var d := Get(Object(context), "devops");
    var i := Get(Object(context), "ibp");
    var p := Get(Object(context), "plm");
    && (forall f | f in ["pipeline_passed", "security_audited", "ham_drift_checked"] :: IsBoolOrMissing(Get(d, f)))
    && (forall f | f in ["cross_functional_synthesized", "budget_aligned", "subagent_budget_aligned"] ::
        IsBoolOrMissing(Get(i, f)))
    && IsNumberOrMissing(Get(i, "budget_exhaustion_percentage"))
    && IsNumberOrMissing(Get(i, "subagent_budget_exhaustion_percentage"))
    && IsStringOrMissing(Get(i, "subagent_id"))
    && (Get(p, "active_requirement_id").Null? || IsStringOrMissing(Get(p, "active_requirement_id")))
    && (forall f | f in ["associated_tests_written", "has_api_drift", "drift_verified", "release_version_updated",
                         "changelog_updated", "has_active_feedback", "feedback_aligned"] :: IsBoolOrMissing(Get(p, f)))
  }

  // ---------- combining outcomes, program by program ----------

  /** The Cedar library: rules that err are skipped. */
  function LibraryDecision(vs: seq<Verdict>): Decision {
    if Verdict(Permit, True) in vs && Verdict(Forbid, True) !in vs then Allow else Deny
  }

  function LibraryErrors(vs: seq<Verdict>): seq<nat> {
    if vs == [] then []
    else
      var n := |vs| - 1;
      LibraryErrors(vs[..n]) + (if vs[n].outcome == Error then [n] else [])
  }

  function Daemon(vs: seq<Verdict>): Decision {
    if LibraryErrors(vs) != [] then Deny else LibraryDecision(vs)
  }

  function WasmWrapper(vs: seq<Verdict>): bool {
    if LibraryErrors(vs) != [] then false else LibraryDecision(vs) == Allow
  }

  lemma {:induction false} EarlyExitMeans(vs: seq<Verdict>, permitted: bool)
    ensures EarlyExit(vs, permitted) == Allow <==>
            && (forall i | 0 <= i < |vs| :: vs[i].outcome != Error)
            && Verdict(Forbid, True) !in vs
            && (permitted || Verdict(Permit, True) in vs)
    decreases |vs|
  {
    if vs != [] {
      EarlyExitMeans(vs[1..], permitted || vs[0] == Verdict(Permit, True));
      assert forall i | 1 <= i < |vs| :: vs[i] == vs[1..][i - 1];
    }
  }

  lemma {:induction false} FullScanMeans(vs: seq<Verdict>, permits: nat, forbids: nat)
    ensures FullScan(vs, permits, forbids) == Allow <==>
            && (forall i | 0 <= i < |vs| :: vs[i].outcome != Error)
            && (forbids == 0 && Verdict(Forbid, True) !in vs)
            && (permits > 0 || Verdict(Permit, True) in vs)
    decreases |vs|
  {
    if vs != [] {
      FullScanMeans(vs[1..], permits + (if vs[0] == Verdict(Permit, True) then 1 else 0),
                    forbids + (if vs[0] == Verdict(Forbid, True) then 1 else 0));
      assert forall i | 1 <= i < |vs| :: vs[i] == vs[1..][i - 1];
    }
  }

  lemma {:induction false} LibraryErrorsMean(vs: seq<Verdict>)
    ensures LibraryErrors(vs) == [] <==> forall i | 0 <= i < |vs| :: vs[i].outcome != Error
    decreases |vs|
  {
    if vs != [] {
      LibraryErrorsMean(vs[..|vs| - 1]);
    }
  }

  // ---------- main results ----------

  /** All four give the same decision, the one `Grants` states. */
  lemma FourEnginesAgree(vs: seq<Verdict>)
    ensures EarlyExit(vs, false) == FullScan(vs, 0, 0) == Daemon(vs) == if Grants(vs) then Allow else Deny
    ensures WasmWrapper(vs) <==> Grants(vs)
  {
    EarlyExitMeans(vs, false);
    FullScanMeans(vs, 0, 0);
    LibraryErrorsMean(vs);
  }

  /** ... and the order of the rules does not matter. */
  lemma RuleOrderIrrelevant(vs: seq<Verdict>, ws: seq<Verdict>)
    requires multiset(vs) == multiset(ws)
    ensures EarlyExit(vs, false) == EarlyExit(ws, false)
  {
    FourEnginesAgree(vs);
    FourEnginesAgree(ws);
    assert forall v :: v in vs <==> v in multiset(vs);
    assert forall v :: v in ws <==> v in multiset(ws);
    assert (forall i | 0 <= i < |vs| :: vs[i].outcome != Error) <==> forall v | v in multiset(vs) :: v.outcome != Error;
    assert (forall i | 0 <= i < |ws| :: ws[i].outcome != Error) <==> forall v | v in multiset(ws) :: v.outcome != Error;
  }

  /** The decision for any spelling of a path is the decision for its canonical form. */
  lemma SpellingIrrelevant(rules: seq<Rule>, r: Request, spelling: string, c: string)
    requires RelativePath.Canonical(spelling) == Some(c)
    ensures Meaning(rules, r.(args := r.args["path" := Str(spelling)])) ==
            Meaning(rules, r.(args := r.args["path" := Str(c)]))
  {
    RelativePath.CanonicalIsIdempotent(spelling);
    var a, b := r.args["path" := Str(spelling)], r.args["path" := Str(c)];
    assert a["path" := Str(c)] == b["path" := Str(c)];
  }

  /** A path without a canonical form is denied whatever the rules. */
  lemma EscapingPathDenied(rules: seq<Rule>, r: Request)
    requires "path" in r.args && r.args["path"].Str? && RelativePath.Canonical(r.args["path"].s).None?
    ensures Meaning(rules, r) == Deny
  {
  }
}
