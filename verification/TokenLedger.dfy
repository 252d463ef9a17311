/** The token budget of a sprint and of its subagents. */
module TokenLedger {
  import opened Wrappers

  datatype Subagent = Subagent(budget: int, consumed: int)

  datatype State = State(budget: int, consumed: int, subagents: map<string, Subagent>)

  datatype Saved = Saved(budget: int, consumed: int, subagents: Option<map<string, Subagent>>)

  datatype Event =
    | Recorded(tokens: int)
    | RecordedFor(id: string, tokens: int, maxBudget: Option<int>)
    | Extended(amount: int)
    | Cleared

  const DEFAULT_BUDGET := 80000
  const DEFAULT_SUBAGENT_BUDGET := 20000

  predicate IsSafeId(id: string) {
    && 1 <= |id| <= 64
    && forall i | 0 <= i < |id| ::
         'a' <= id[i] <= 'z' || 'A' <= id[i] <= 'Z' || '0' <= id[i] <= '9' || id[i] == '_' || id[i] == '-'
  }

  /** A new subagent gets the given budget unless that is missing or zero; a known one only a given budget. */
  function Charged(subagents: map<string, Subagent>, id: string, tokens: int, maxBudget: Option<int>): Subagent {
    if id in subagents then
      Subagent(if maxBudget.Some? then maxBudget.value else subagents[id].budget, subagents[id].consumed + tokens)
    else
      Subagent(if maxBudget.Some? && maxBudget.value != 0 then maxBudget.value else DEFAULT_SUBAGENT_BUDGET, tokens)
  }

  function Step(s: State, e: Event): State {
    match e
    case Recorded(tokens) => s.(consumed := s.consumed + tokens)
    case RecordedFor(id, tokens, maxBudget) =>
      if IsSafeId(id) then
        s.(consumed := s.consumed + tokens, subagents := s.subagents[id := Charged(s.subagents, id, tokens, maxBudget)])
      else s
    case Extended(amount) => s.(budget := s.budget + amount)
    case Cleared => s.(consumed := 0, subagents := map[])
  }

  function Run(s: State, events: seq<Event>): State {
    if events == [] then s else Step(Run(s, events[..|events| - 1]), events[|events| - 1])
  }

  /** Consumption against budget in percent, rounded down and capped. */
  function Percentage(consumed: int, budget: int): int {
    if budget <= 0 then 100
    else
      var p := consumed * 100 / budget;
      if p < 100 then p else 100
  }

  class IbpTracker {
    var tokenBudget: int
    var tokensConsumed: int
    var subagentBudgets: map<string, Subagent>

    function Value(): State
      reads this
    {
      State(tokenBudget, tokensConsumed, subagentBudgets)
    }

    /** `saved` is the state file as it was read: nothing, or a state that may lack the subagents. */
    constructor (saved: Option<Saved>)
      ensures Value() == match saved
                         case None => State(DEFAULT_BUDGET, 0, map[])
                         case Some(v) =>
                           State(v.budget, v.consumed, if v.subagents.Some? then v.subagents.value else map[])
    {
      tokenBudget, tokensConsumed, subagentBudgets := DEFAULT_BUDGET, 0, map[];
      if saved.Some? {
        tokenBudget, tokensConsumed := saved.value.budget, saved.value.consumed;
        if saved.value.subagents.Some? {
          subagentBudgets := saved.value.subagents.value;
        }
      }
    }

    method RecordTokenUsage(tokens: int)
      modifies this
      ensures Value() == Step(old(Value()), Recorded(tokens))
    {
      tokensConsumed := tokensConsumed + tokens;
    }

    /** `ok` is false where the original throws on a malformed id. */
    method RecordSubagentTokenUsage(id: string, tokens: int, maxBudget: Option<int>) returns (ok: bool)
      modifies this
      ensures Value() == Step(old(Value()), RecordedFor(id, tokens, maxBudget))
      ensures ok <==> IsSafeId(id)
    {
      if !IsSafeId(id) {
        return false;
      }
      if id !in subagentBudgets {
        var budget := if maxBudget.Some? && maxBudget.value != 0 then maxBudget.value else DEFAULT_SUBAGENT_BUDGET;
        subagentBudgets := subagentBudgets[id := Subagent(budget, 0)];
      } else if maxBudget.Some? {
        subagentBudgets := subagentBudgets[id := subagentBudgets[id].(budget := maxBudget.value)];
      }
      var sub := subagentBudgets[id];
      subagentBudgets := subagentBudgets[id := sub.(consumed := sub.consumed + tokens)];
      tokensConsumed := tokensConsumed + tokens;
      ok := true;
    }

    method AddTokenBudget(amount: int)
      modifies this
      ensures Value() == Step(old(Value()), Extended(amount))
    {
      tokenBudget := tokenBudget + amount;
    }

    method ClearTasks()
      modifies this
      ensures Value() == Step(old(Value()), Cleared)
    {
      tokensConsumed := 0;
      subagentBudgets := map[];
    }

    predicate IsBudgetAligned()
      reads this
    {
      tokensConsumed <= tokenBudget
    }

    predicate IsSubagentBudgetAligned(id: string)
      reads this
    {
      id in subagentBudgets ==> subagentBudgets[id].consumed <= subagentBudgets[id].budget
    }

    function BudgetExhaustionPercentage(): (r: int)
      reads this
      ensures r < 100 ==> IsBudgetAligned()
      ensures r == 100 <==> tokenBudget <= 0 || tokensConsumed >= tokenBudget
    {
      PercentageMeans(tokensConsumed, tokenBudget);
      Percentage(tokensConsumed, tokenBudget)
    }

    function SubagentBudgetExhaustionPercentage(id: string): (r: int)
      reads this
      ensures r < 100 ==> IsSubagentBudgetAligned(id)
      ensures r == 100 <==> id in subagentBudgets &&
                            (subagentBudgets[id].budget <= 0 ||
                             subagentBudgets[id].consumed >= subagentBudgets[id].budget)
    {
      if id !in subagentBudgets then 0
      else
        PercentageMeans(subagentBudgets[id].consumed, subagentBudgets[id].budget);
        Percentage(subagentBudgets[id].consumed, subagentBudgets[id].budget)
    }
  }

  // ---------- the books balance ----------

  ghost function Total(subagents: map<string, Subagent>): int
    decreases |subagents|
  {
    if subagents == map[] then 0
    else
      var id :| id in subagents;
      subagents[id].consumed + Total(subagents - {id})
  }

  lemma {:induction false} TotalWithout(subagents: map<string, Subagent>, id: string)
    requires id in subagents
    ensures Total(subagents) == subagents[id].consumed + Total(subagents - {id})
    decreases |subagents|
  {
    var k :| k in subagents && Total(subagents) == subagents[k].consumed + Total(subagents - {k});
    if k != id {
      TotalWithout(subagents - {k}, id);
      TotalWithout(subagents - {id}, k);
      assert subagents - {k} - {id} == subagents - {id} - {k};
    }
  }

  lemma TotalUpdated(subagents: map<string, Subagent>, id: string, sub: Subagent)
    ensures Total(subagents[id := sub]) ==
            Total(subagents) + sub.consumed - (if id in subagents then subagents[id].consumed else 0)
  {
    TotalWithout(subagents[id := sub], id);
    assert subagents[id := sub] - {id} == subagents - {id};
    if id in subagents {
      TotalWithout(subagents, id);
    } else {
      assert subagents - {id} == subagents;
    }
  }

  /** Usage recorded without a subagent since the last reset, on top of what was there before. */
  function DirectUsage(before: int, events: seq<Event>): int {
    if events == [] then before
    else
      var n := |events| - 1;
      match events[n]
      case Cleared => 0
      case Recorded(tokens) => DirectUsage(before, events[..n]) + tokens
      case _ => DirectUsage(before, events[..n])
  }

  ghost predicate NonNegative(s: State) {
    s.consumed >= 0 && forall id | id in s.subagents :: s.subagents[id].consumed >= 0
  }

  predicate IsNonNegative(e: Event) {
    (e.Recorded? ==> e.tokens >= 0) && (e.RecordedFor? ==> e.tokens >= 0)
  }

  // ---------- main results ----------

  /** Over every run the global consumption is the direct usage plus the sum over all subagents. */
  lemma {:induction false} LedgerBalances(s: State, before: int, events: seq<Event>)
    requires s.consumed == before + Total(s.subagents)
    ensures Run(s, events).consumed == DirectUsage(before, events) + Total(Run(s, events).subagents)
  {
    if events != [] {
      var n := |events| - 1;
      LedgerBalances(s, before, events[..n]);
      var t := Run(s, events[..n]);
      if events[n].RecordedFor? && IsSafeId(events[n].id) {
        TotalUpdated(t.subagents, events[n].id,
                     Charged(t.subagents, events[n].id, events[n].tokens, events[n].maxBudget));
      }
    }
  }

  lemma {:induction false} RunKeepsNonNegative(s: State, events: seq<Event>)
    requires NonNegative(s) && forall i | 0 <= i < |events| :: IsNonNegative(events[i])
    ensures NonNegative(Run(s, events))
  {
    if events != [] {
      RunKeepsNonNegative(s, events[..|events| - 1]);
      assert IsNonNegative(events[|events| - 1]);
    }
  }

  lemma {:induction false} TotalBounds(subagents: map<string, Subagent>, id: string)
    requires id in subagents && forall k | k in subagents :: subagents[k].consumed >= 0
    ensures subagents[id].consumed <= Total(subagents)
    decreases |subagents|
  {
    TotalWithout(subagents, id);
    if k :| k in subagents - {id} {
      TotalBounds(subagents - {id}, k);
    }
  }

  /** No subagent has consumed more than the sprint as a whole. */
  lemma SubagentWithinTotal(s: State, before: int, events: seq<Event>, id: string)
    requires NonNegative(s) && before >= 0 && s.consumed == before + Total(s.subagents)
    requires forall i | 0 <= i < |events| :: IsNonNegative(events[i])
    requires id in Run(s, events).subagents
    ensures Run(s, events).subagents[id].consumed <= Run(s, events).consumed
  {
    LedgerBalances(s, before, events);
    RunKeepsNonNegative(s, events);
    TotalBounds(Run(s, events).subagents, id);
    DirectNonNegative(before, events);
  }

  lemma {:induction false} DirectNonNegative(before: int, events: seq<Event>)
    requires before >= 0 && forall i | 0 <= i < |events| :: IsNonNegative(events[i])
    ensures DirectUsage(before, events) >= 0
  {
    if events != [] {
      DirectNonNegative(before, events[..|events| - 1]);
      assert IsNonNegative(events[|events| - 1]);
    }
  }

  /** The percentage reaches 100 exactly when the budget is used up or was none; below 100 the budget is kept. */
  lemma PercentageMeans(consumed: int, budget: int)
    ensures Percentage(consumed, budget) <= 100
    ensures Percentage(consumed, budget) == 100 <==> budget <= 0 || consumed >= budget
    ensures consumed >= 0 ==>
              0 <= Percentage(consumed, budget) && (Percentage(consumed, budget) == 100 <==> consumed >= budget)
  {
    if budget > 0 {
      var q := consumed * 100 / budget;
      assert q * budget <= consumed * 100 < (q + 1) * budget;
      if consumed >= budget && q + 1 <= 100 {
        MulOrder(q + 1, 100, budget);
      }
      if consumed < budget && q >= 100 {
        MulOrder(100, q, budget);
      }
      if consumed >= 0 && q < 0 {
        MulOrder(q + 1, 0, budget);
      }
    }
  }

  lemma MulOrder(a: int, b: int, c: int)
    requires a <= b && c > 0
    ensures a * c <= b * c
  {
  }
}
