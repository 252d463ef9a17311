/**
 From the rule blocks of a policy to the rules that decide.

 A block whose condition cannot be tokenized or parsed is logged and left out of the rules.  The engines deny
 when a rule cannot be evaluated; a rule that could not be read is not there to be evaluated.
 */
module CedarPolicy {
  import opened Wrappers
  import opened CedarParser
  import opened CedarEngine
  import CedarLexer
  import Text
  import W = CedarRoundTrip

  /** A rule block as the policy text has it: its effect and the trimmed text of its condition. */
  datatype Block = Block(effect: Effect, condition: string)

  predicate Hangs(b: Block) {
    CedarLexer.Tokenized(b.condition).Stuck?
  }

  predicate Unreadable(b: Block) {
    W.ReadCondition(b.condition).None?
  }

  /** The rules that are kept; None when the tokenizer runs on for ever on one of the conditions. */
  function Loaded(blocks: seq<Block>): Option<seq<Rule>> {
    if blocks == [] then Some([])
    else
      var n := |blocks| - 1;
      match Loaded(blocks[..n])
      case None => None
      case Some(rules) =>
        if Hangs(blocks[n]) then None
        else
          match W.ReadCondition(blocks[n].condition)
          case None => Some(rules)
          case Some(ast) => Some(rules + [Rule(blocks[n].effect, ast)])
  }

  /** The loop over the blocks. */
  method Parse(blocks: seq<Block>) returns (r: Option<seq<Rule>>)
    ensures r == Loaded(blocks)
    ensures r.None? <==> exists i | 0 <= i < |blocks| :: Hangs(blocks[i])
  {
    LoadedUnlessHangs(blocks);
    var rules: seq<Rule> := [];
    for i := 0 to |blocks|
      invariant Loaded(blocks[..i]) == Some(rules)
      invariant forall k | 0 <= k < i :: !Hangs(blocks[k])
    {
      assert blocks[..i + 1][..i] == blocks[..i];
      var scanned := CedarLexer.Tokenize(blocks[i].condition);
      match scanned
      case Stuck => return None;
      case TooLong =>
      case Tokens(tokens) =>
        var ast := ParseExpression(tokens);
        if ast.Some? {
          rules := rules + [Rule(blocks[i].effect, ast.value)];
        }
    }
    assert blocks[..|blocks|] == blocks;
    r := Some(rules);
  }

  lemma {:induction false} LoadedUnlessHangs(blocks: seq<Block>)
    ensures Loaded(blocks).None? <==> exists i | 0 <= i < |blocks| :: Hangs(blocks[i])
    decreases |blocks|
  {
    if blocks != [] {
      LoadedUnlessHangs(blocks[..|blocks| - 1]);
    }
  }

  // ---------- the policy as written ----------

  /**
   What a block comes to for a request: its outcome if it was read, and otherwise `meant`, which is whatever its
   condition was to say.
   */
  function Says(b: Block, ctx: Value, meant: Outcome): Verdict {
    match W.ReadCondition(b.condition)
    case Some(ast) => Verdict(b.effect, Evaluate(ast, ctx))
    case None => Verdict(b.effect, meant)
  }

  function AsWritten(blocks: seq<Block>, ctx: Value, meant: seq<Outcome>): seq<Verdict>
    requires |meant| == |blocks|
  {
    seq(|blocks|, i requires 0 <= i < |blocks| => Says(blocks[i], ctx, meant[i]))
  }

  /** A block that was left out and was to say this. */
  ghost predicate LeftOut(blocks: seq<Block>, meant: seq<Outcome>, v: Verdict)
    requires |meant| == |blocks|
  {
    exists i | 0 <= i < |blocks| :: Unreadable(blocks[i]) && blocks[i].effect == v.effect && meant[i] == v.outcome
  }

  function KeptVerdicts(blocks: seq<Block>, ctx: Value): seq<Verdict>
    requires Loaded(blocks).Some?
  {
    Verdicts(Loaded(blocks).value, ctx)
  }

  lemma VerdictsOfMore(rules: seq<Rule>, last: Rule, ctx: Value)
    ensures Verdicts(rules + [last], ctx) == Verdicts(rules, ctx) + [Verdict(last.effect, Evaluate(last.ast, ctx))]
  {
  }

  /** The verdicts that the rules give are those of the policy as written, save what was left out. */
  lemma {:induction false} WrittenIsKeptAndLeftOut(blocks: seq<Block>, ctx: Value, meant: seq<Outcome>, v: Verdict)
    requires |meant| == |blocks| && Loaded(blocks).Some?
    ensures v in AsWritten(blocks, ctx, meant) <==> v in KeptVerdicts(blocks, ctx) || LeftOut(blocks, meant, v)
    decreases |blocks|
  {
    if blocks != [] {
      var n := |blocks| - 1;
      WrittenIsKeptAndLeftOut(blocks[..n], ctx, meant[..n], v);
      var last := Says(blocks[n], ctx, meant[n]);
      assert AsWritten(blocks, ctx, meant) == AsWritten(blocks[..n], ctx, meant[..n]) + [last];
      LeftOutLast(blocks, meant, v, n);
      if !Unreadable(blocks[n]) {
        VerdictsOfMore(Loaded(blocks[..n]).value, Loaded(blocks).value[|Loaded(blocks).value| - 1], ctx);
      }
    }
  }

  lemma LeftOutLast(blocks: seq<Block>, meant: seq<Outcome>, v: Verdict, n: nat)
    requires |meant| == |blocks| == n + 1
    ensures LeftOut(blocks, meant, v) <==>
            || LeftOut(blocks[..n], meant[..n], v)
            || (Unreadable(blocks[n]) && blocks[n].effect == v.effect && meant[n] == v.outcome)
  {
    if i :| 0 <= i < n && Unreadable(blocks[i]) && blocks[i].effect == v.effect && meant[i] == v.outcome {
      assert Unreadable(blocks[..n][i]) && blocks[..n][i].effect == v.effect && meant[..n][i] == v.outcome;
    }
  }

  // ---------- exactly when leaving a rule out changes the decision ----------

  /** Some block left out was to forbid, or was to err. */
  ghost predicate LeftOutObjection(blocks: seq<Block>, meant: seq<Outcome>)
    requires |meant| == |blocks|
  {
    || LeftOut(blocks, meant, Verdict(Forbid, True))
    || LeftOut(blocks, meant, Verdict(Forbid, Error))
    || LeftOut(blocks, meant, Verdict(Permit, Error))
  }

  /** No rule forbids and none errs, but none permits either. */
  ghost predicate IsSilent(vs: seq<Verdict>) {
    && (forall i | 0 <= i < |vs| :: vs[i].outcome != Error)
    && Verdict(Forbid, True) !in vs && Verdict(Permit, True) !in vs
  }

  lemma GrantsByMembers(vs: seq<Verdict>)
    ensures (forall i | 0 <= i < |vs| :: vs[i].outcome != Error) <==>
            Verdict(Forbid, Error) !in vs && Verdict(Permit, Error) !in vs
  {
    if i :| 0 <= i < |vs| && vs[i].outcome == Error {
      assert vs[i].effect.Forbid? || vs[i].effect.Permit?;
      assert vs[i] == Verdict(vs[i].effect, Error);
    }
    if v :| (v == Verdict(Forbid, Error) || v == Verdict(Permit, Error)) && v in vs {
      var i :| 0 <= i < |vs| && vs[i] == v;
    }
  }

  /**
   Leaving out what cannot be read allows a request that the policy as written denies exactly if the rules that were
   read grant it and a block left out was to forbid it or to err; and denies one that the policy allows
   exactly if those rules are silent, a block left out was to permit it, and none was to forbid it or to err.
   */
  lemma LeavingOutMattersIff(blocks: seq<Block>, ctx: Value, meant: seq<Outcome>)
    requires |meant| == |blocks| && Loaded(blocks).Some?
    ensures Grants(KeptVerdicts(blocks, ctx)) && !Grants(AsWritten(blocks, ctx, meant)) <==>
            Grants(KeptVerdicts(blocks, ctx)) && LeftOutObjection(blocks, meant)
    ensures !Grants(KeptVerdicts(blocks, ctx)) && Grants(AsWritten(blocks, ctx, meant)) <==>
            && IsSilent(KeptVerdicts(blocks, ctx))
            && LeftOut(blocks, meant, Verdict(Permit, True)) && !LeftOutObjection(blocks, meant)
  {
    GrantsByMembers(KeptVerdicts(blocks, ctx));
    GrantsByMembers(AsWritten(blocks, ctx, meant));
    WrittenIsKeptAndLeftOut(blocks, ctx, meant, Verdict(Forbid, True));
    WrittenIsKeptAndLeftOut(blocks, ctx, meant, Verdict(Forbid, Error));
    WrittenIsKeptAndLeftOut(blocks, ctx, meant, Verdict(Permit, Error));
    WrittenIsKeptAndLeftOut(blocks, ctx, meant, Verdict(Permit, True));
  }

  /**
   Failing closed, as for a rule that cannot be evaluated, would
   differ exactly on what is granted beside a block left out.
   */
  lemma FailingClosedDiffersIff(blocks: seq<Block>, ctx: Value)
    requires Loaded(blocks).Some?
    ensures var closed := AsWritten(blocks, ctx, seq(|blocks|, _ => Error));
            (Grants(KeptVerdicts(blocks, ctx)) <==> Grants(closed)) <==>
            !(Grants(KeptVerdicts(blocks, ctx)) && exists i | 0 <= i < |blocks| :: Unreadable(blocks[i]))
  {
    var meant := seq(|blocks|, _ => Error);
    LeavingOutMattersIff(blocks, ctx, meant);
    forall i | 0 <= i < |blocks| && Unreadable(blocks[i]) ensures LeftOutObjection(blocks, meant) {
      assert meant[i] == Error && (blocks[i].effect == Forbid || blocks[i].effect == Permit);
    }
  }

  // ---------- a forbid that is left out ----------

  function Layout(e: Ast, gaps: seq<string>): string
    requires W.LegalGaps(W.TokensAt(e, 0), gaps)
  {
    W.Render(W.TokensAt(e, 0), gaps)
  }

  lemma LoadedMore(blocks: seq<Block>, b: Block, rules: seq<Rule>)
    requires Loaded(blocks) == Some(rules) && !Hangs(b)
    ensures Loaded(blocks + [b]) ==
            match W.ReadCondition(b.condition)
            case None => Some(rules)
            case Some(ast) => Some(rules + [Rule(b.effect, ast)])
  {
    assert (blocks + [b])[..|blocks|] == blocks;
  }

  /** One condition laid out twice: within the length limit to permit, and over it to forbid. */
  lemma LongForbidIsLeftOut(e: Ast, short: seq<string>, long: seq<string>)
    requires W.Writable(e) && W.LegalGaps(W.TokensAt(e, 0), short) && W.LegalGaps(W.TokensAt(e, 0), long)
    requires |Layout(e, short)| <= CedarLexer.MAX_EXPR_LEN < |Layout(e, long)|
    ensures Loaded([Block(Permit, Layout(e, short)), Block(Forbid, Layout(e, long))]) == Some([Rule(Permit, e)])
  {
    W.RoundTrip(e, short);
    W.RoundTrip(e, long);
    var first, second := Block(Permit, Layout(e, short)), Block(Forbid, Layout(e, long));
    LoadedMore([], first, []);
    assert [] + [first] == [first] && [] + [Rule(Permit, e)] == [Rule(Permit, e)];
    LoadedMore([first], second, [Rule(Permit, e)]);
    assert [first] + [second] == [first, second];
  }

  /** A request that meets the condition is then allowed, where both rules together deny it. */
  lemma ForbidWouldDeny(e: Ast, r: Request)
    requires NormalizeArgs(r.args).Some? && Evaluate(e, EvalContext(r, NormalizeArgs(r.args).value)) == True
    ensures Meaning([Rule(Permit, e)], r) == Allow && Meaning([Rule(Permit, e), Rule(Forbid, e)], r) == Deny
  {
    var ctx := EvalContext(r, NormalizeArgs(r.args).value);
    assert Verdicts([Rule(Permit, e)], ctx)[0] == Verdict(Permit, True);
    assert Verdicts([Rule(Permit, e), Rule(Forbid, e)], ctx)[1] == Verdict(Forbid, True);
  }

  // ---------- such a policy ----------

  /** The condition `!x` holds of every request; here it is written with a gap between its two tokens. */
  const NOT_X := Not(Attribute("x"))

  function Gapped(gap: string): string {
    "!" + gap + "x"
  }

  function Gaps(gap: string): seq<string> {
    ["", gap, ""]
  }

  lemma NotXTokens()
    ensures W.TokensAt(NOT_X, 0) == ["!", "x"] && W.Writable(NOT_X)
  {
    assert W.TokensAt(Attribute("x"), 2) == ["x"];
    assert Text.IndexOf("x"[1..], CONTAINS) == None;
  }

  lemma NotXLayout(gap: string)
    requires W.IsGap(gap)
    ensures W.LegalGaps(["!", "x"], Gaps(gap)) && W.Render(["!", "x"], Gaps(gap)) == Gapped(gap)
  {
    assert !W.IsWord("!") by { assert CedarLexer.IsStop("!"[0]); }
    assert W.Fits("!", "x") && W.IsGap("");
    var ts, gaps := ["!", "x"], ["", gap, ""];
    assert ts[1..] == ["x"] && gaps[1..] == [gap, ""] && ["x"][1..] == [] && [gap, ""][1..] == [""];
    assert W.Render([], [""]) == "";
    assert W.Render(["x"], [gap, ""]) == gap + "x" + "";
  }

  lemma NotXHolds(r: Request, args: map<string, Value>)
    ensures Evaluate(NOT_X, EvalContext(r, args)) == True
  {
    assert "x"[1..] == "" && Text.Split("", '.') == [""] && ['x'] + "" == "x";
    assert Text.Split("x", '.') == ["x"];
    var ctx := EvalContext(r, args);
    assert Get(ctx, "x") == Undefined by { assert "x" != "principal" && "x" != "resource" && "x" != "context"; }
    assert GetPath(ctx, ["x"]) == Undefined by { assert ["x"][1..] == []; }
  }

  /**
   A policy that permits everything and then forbids everything, its second condition stretched over the limit:
   it allows every request whose path is canonical.
   */
  lemma ForbidIsLeftOut(gap: string, r: Request)
    requires W.IsGap(gap) && |gap| >= CedarLexer.MAX_EXPR_LEN && NormalizeArgs(r.args).Some?
    ensures var policy := [Block(Permit, Gapped("")), Block(Forbid, Gapped(gap))];
            Loaded(policy).Some? && Meaning(Loaded(policy).value, r) == Allow
    ensures Meaning([Rule(Permit, NOT_X), Rule(Forbid, NOT_X)], r) == Deny
  {
    NotXTokens();
    assert W.IsGap("");
    NotXLayout("");
    NotXLayout(gap);
    LongForbidIsLeftOut(NOT_X, Gaps(""), Gaps(gap));
    NotXHolds(r, NormalizeArgs(r.args).value);
    ForbidWouldDeny(NOT_X, r);
  }
}
