/**
 The syntax trees of policy conditions and their recursive descent parser.

 `ParseOr` and its companions say what a token list means; the class `Parser`
 is the original's parser, whose routines share one index into the tokens.
 */
module CedarParser {
  import opened Wrappers
  import opened CedarLiterals
  import Text

  datatype Comparison = Greater | Less | GreaterOrEqual | LessOrEqual

  datatype Ast =
    | And(left: Ast, right: Ast)
    | Or(left: Ast, right: Ast)
    | Not(operand: Ast)
    | Has(path: string, prop: string)
    | In(path: string, values: seq<string>)
    | Like(path: string, pattern: string)
    | Contains(path: string, substring: string)
    | Equals(path: string, value: Literal)
    | Compare(op: Comparison, path: string, number: string)
    | Attribute(path: string)

  datatype Parse<T> = Parsed(value: T, rest: seq<string>) | SyntaxError

  const CONTAINS := ".contains"

  function Symbol(op: Comparison): string {
    match op
    case Greater => ">"
    case Less => "<"
    case GreaterOrEqual => ">="
    case LessOrEqual => "<="
  }

  /** The token at the front; "" at the end, which the original treats alike. */
  function Peek(ts: seq<string>): string {
    if ts == [] then "" else ts[0]
  }

  // ---------- operands ----------

  /** `Type::` written as one word, before the quoted id of an entity. */
  predicate IsEntityType(token: string) {
    && |token| >= 3
    && token[|token| - 2..] == "::"
    && !IsDigit(token[0])
    && forall i | 0 <= i < |token| - 2 :: IsWordChar(token[i])
  }

  predicate IsWordChar(c: char) {
    'a' <= c <= 'z' || 'A' <= c <= 'Z' || c == '_' || IsDigit(c)
  }

  function EqualsOperand(ts: seq<string>): (r: Parse<Literal>)
    ensures r.Parsed? ==> |r.rest| < |ts|
  {
    if Peek(ts) == "" then SyntaxError
    else if IsEntityType(ts[0]) && Peek(ts[1..]) != "" && ts[1][0] == '\"' then
      match ParseLiteral(ts[1])
      case None => SyntaxError
      case Some(v) => Parsed(v, ts[2..])
    else
      match ParseLiteral(ts[0])
      case None => SyntaxError
      case Some(v) => Parsed(v, ts[1..])
  }

  function StringOperand(ts: seq<string>): (r: Parse<string>)
    ensures r.Parsed? ==> |r.rest| < |ts|
  {
    if Peek(ts) == "" then SyntaxError
    else
      match ParseString(ts[0])
      case None => SyntaxError
      case Some(text) => Parsed(text, ts[1..])
  }

  function ListOperand(ts: seq<string>): (r: Parse<seq<string>>)
    ensures r.Parsed? ==> |r.rest| < |ts|
  {
    if Peek(ts) == "" then SyntaxError
    else
      match ParseList(ts[0])
      case None => SyntaxError
      case Some(items) => Parsed(items, ts[1..])
  }

  function NumberOperand(ts: seq<string>): (r: Parse<string>)
    ensures r.Parsed? ==> |r.rest| < |ts|
  {
    if Peek(ts) == "" || !IsNumber(ts[0]) then SyntaxError else Parsed(ts[0], ts[1..])
  }

  /** `consume(expected)` */
  function Expect(r: Parse<Ast>, token: string): (e: Parse<Ast>)
    ensures e.Parsed? ==> r.Parsed? && |e.rest| < |r.rest|
  {
    if r.Parsed? && Peek(r.rest) == token && token != "" then Parsed(r.value, r.rest[1..]) else SyntaxError
  }

  // ---------- one condition on an attribute path ----------

  function ContainsCall(path: string, at: nat, ts: seq<string>): (r: Parse<Ast>)
    requires at <= |path|
    ensures r.Parsed? ==> |r.rest| < |ts|
  {
    if Peek(ts) != "(" then SyntaxError
    else
      match StringOperand(ts[1..])
      case SyntaxError => SyntaxError
      case Parsed(text, rest) => Expect(Parsed(Contains(path[..at], text), rest), ")")
  }

  function Comparator(token: string): Option<Comparison> {
    match token
    case ">" => Some(Greater)
    case "<" => Some(Less)
    case ">=" => Some(GreaterOrEqual)
    case "<=" => Some(LessOrEqual)
    case _ => None
  }

  /** What follows the path: an operator and its operand, a `contains` call, or nothing. */
  function ParseTest(path: string, ts: seq<string>): (r: Parse<Ast>)
    ensures r.Parsed? ==> |r.rest| <= |ts|
  {
    var next := Peek(ts);
    if next == "in" then
      match ListOperand(ts[1..])
      case SyntaxError => SyntaxError
      case Parsed(items, rest) => Parsed(In(path, items), rest)
    else if next == "==" then
      match EqualsOperand(ts[1..])
      case SyntaxError => SyntaxError
      case Parsed(v, rest) => Parsed(Equals(path, v), rest)
    else if Comparator(next).Some? then
      match NumberOperand(ts[1..])
      case SyntaxError => SyntaxError
      case Parsed(n, rest) => Parsed(Compare(Comparator(next).value, path, n), rest)
    else if next == "like" then
      match StringOperand(ts[1..])
      case SyntaxError => SyntaxError
      case Parsed(p, rest) => Parsed(Like(path, p), rest)
    else if next == "has" then
      if Peek(ts[1..]) == "" then SyntaxError else Parsed(Has(path, ts[1]), ts[2..])
    else if Text.Includes(path, CONTAINS) then ContainsCall(path, Text.IndexOf(path, CONTAINS).value, ts)
    else if next in {"", "&&", "||", ")"} then Parsed(Attribute(path), ts)
    else SyntaxError
  }

  // ---------- the grammar ----------

  function ParsePrimary(ts: seq<string>): (r: Parse<Ast>)
    ensures r.Parsed? ==> |r.rest| < |ts|
    decreases |ts|, 0
  {
    if Peek(ts) == "" then SyntaxError
    else if ts[0] == "!" then
      match ParsePrimary(ts[1..])
      case SyntaxError => SyntaxError
      case Parsed(e, rest) => Parsed(Not(e), rest)
    else if ts[0] == "(" then Expect(ParseOr(ts[1..]), ")")
    else ParseTest(ts[0], ts[1..])
  }

  function AndLoop(node: Ast, ts: seq<string>): (r: Parse<Ast>)
    ensures r.Parsed? ==> |r.rest| <= |ts|
    decreases |ts|, 1
  {
    if Peek(ts) != "&&" then Parsed(node, ts)
    else
      match ParsePrimary(ts[1..])
      case SyntaxError => SyntaxError
      case Parsed(right, rest) => AndLoop(And(node, right), rest)
  }

  function ParseAnd(ts: seq<string>): (r: Parse<Ast>)
    ensures r.Parsed? ==> |r.rest| < |ts|
    decreases |ts|, 2
  {
    match ParsePrimary(ts)
    case SyntaxError => SyntaxError
    case Parsed(node, rest) => AndLoop(node, rest)
  }

  function OrLoop(node: Ast, ts: seq<string>): (r: Parse<Ast>)
    ensures r.Parsed? ==> |r.rest| <= |ts|
    decreases |ts|, 3
  {
    if Peek(ts) != "||" then Parsed(node, ts)
    else
      match ParseAnd(ts[1..])
      case SyntaxError => SyntaxError
      case Parsed(right, rest) => OrLoop(Or(node, right), rest)
  }

  function ParseOr(ts: seq<string>): (r: Parse<Ast>)
    ensures r.Parsed? ==> |r.rest| < |ts|
    decreases |ts|, 4
  {
    match ParseAnd(ts)
    case SyntaxError => SyntaxError
    case Parsed(node, rest) => OrLoop(node, rest)
  }

  /** The whole parser; tokens after the expression are ignored. */
  function ParseExpression(ts: seq<string>): Option<Ast> {
    match ParseOr(ts)
    case SyntaxError => None
    case Parsed(ast, _) => Some(ast)
  }

  // ---------- the grammar from an index on ----------

  /** The tree and the tokens the index points at after it are those that the grammar gives. */
  ghost predicate Reads(tokens: seq<string>, r: Option<Ast>, next: nat, expected: Parse<Ast>)
    requires next <= |tokens|
  {
    expected == if r.None? then SyntaxError else Parsed(r.value, tokens[next..])
  }

  ghost predicate ReadsPrimary(tokens: seq<string>, i: nat, r: Option<Ast>, next: nat)
    requires i <= |tokens| && next <= |tokens|
  {
    Reads(tokens, r, next, ParsePrimary(tokens[i..]))
  }

  ghost predicate ReadsAnd(tokens: seq<string>, i: nat, r: Option<Ast>, next: nat)
    requires i <= |tokens| && next <= |tokens|
  {
    Reads(tokens, r, next, ParseAnd(tokens[i..]))
  }

  ghost predicate ReadsOr(tokens: seq<string>, i: nat, r: Option<Ast>, next: nat)
    requires i <= |tokens| && next <= |tokens|
  {
    Reads(tokens, r, next, ParseOr(tokens[i..]))
  }

  /** What the loop still has to read completes the chain that began at `i`. */
  ghost predicate AndGoesOn(tokens: seq<string>, i: nat, node: Ast, next: nat)
    requires i <= |tokens| && next <= |tokens|
  {
    AndLoop(node, tokens[next..]) == ParseAnd(tokens[i..])
  }

  ghost predicate OrGoesOn(tokens: seq<string>, i: nat, node: Ast, next: nat)
    requires i <= |tokens| && next <= |tokens|
  {
    OrLoop(node, tokens[next..]) == ParseOr(tokens[i..])
  }

  lemma Suffix(tokens: seq<string>, i: nat)
    requires i < |tokens|
    ensures Peek(tokens[i..]) == tokens[i] && tokens[i..][1..] == tokens[i + 1..]
  {
  }

  lemma AndStarts(tokens: seq<string>, i: nat, r: Option<Ast>, next: nat)
    requires i <= |tokens| && next <= |tokens| && ReadsPrimary(tokens, i, r, next)
    ensures if r.None? then ReadsAnd(tokens, i, r, next) else AndGoesOn(tokens, i, r.value, next)
  {
  }

  lemma AndTurn(tokens: seq<string>, i: nat, node: Ast, at: nat, from: nat, r: Option<Ast>, next: nat)
    requires i <= |tokens| && at < |tokens| && from == at + 1 && next <= |tokens| && tokens[at] == "&&"
    requires AndGoesOn(tokens, i, node, at) && ReadsPrimary(tokens, from, r, next)
    ensures if r.None? then ReadsAnd(tokens, i, r, next) else AndGoesOn(tokens, i, And(node, r.value), next)
  {
    Suffix(tokens, at);
  }

  lemma AndEnds(tokens: seq<string>, i: nat, node: Ast, next: nat)
    requires i <= |tokens| && next <= |tokens| && AndGoesOn(tokens, i, node, next)
    requires next == |tokens| || tokens[next] != "&&"
    ensures ReadsAnd(tokens, i, Some(node), next)
  {
    if next < |tokens| {
      Suffix(tokens, next);
    }
  }

  lemma OrStarts(tokens: seq<string>, i: nat, r: Option<Ast>, next: nat)
    requires i <= |tokens| && next <= |tokens| && ReadsAnd(tokens, i, r, next)
    ensures if r.None? then ReadsOr(tokens, i, r, next) else OrGoesOn(tokens, i, r.value, next)
  {
  }

  lemma OrTurn(tokens: seq<string>, i: nat, node: Ast, at: nat, from: nat, r: Option<Ast>, next: nat)
    requires i <= |tokens| && at < |tokens| && from == at + 1 && next <= |tokens| && tokens[at] == "||"
    requires OrGoesOn(tokens, i, node, at) && ReadsAnd(tokens, from, r, next)
    ensures if r.None? then ReadsOr(tokens, i, r, next) else OrGoesOn(tokens, i, Or(node, r.value), next)
  {
    Suffix(tokens, at);
  }

  lemma OrEnds(tokens: seq<string>, i: nat, node: Ast, next: nat)
    requires i <= |tokens| && next <= |tokens| && OrGoesOn(tokens, i, node, next)
    requires next == |tokens| || tokens[next] != "||"
    ensures ReadsOr(tokens, i, Some(node), next)
  {
    if next < |tokens| {
      Suffix(tokens, next);
    }
  }

  lemma NotRead(tokens: seq<string>, i: nat, r: Option<Ast>, next: nat)
    requires i < |tokens| && next <= |tokens| && tokens[i] == "!" && ReadsPrimary(tokens, i + 1, r, next)
    ensures ReadsPrimary(tokens, i, if r.None? then None else Some(Not(r.value)), next)
  {
    Suffix(tokens, i);
  }

  lemma GroupRead(tokens: seq<string>, i: nat, r: Option<Ast>, next: nat)
    requires i < |tokens| && next <= |tokens| && tokens[i] == "(" && ReadsOr(tokens, i + 1, r, next)
    ensures if r.Some? && next < |tokens| && tokens[next] == ")" then ReadsPrimary(tokens, i, r, next + 1)
            else ReadsPrimary(tokens, i, None, next)
  {
    Suffix(tokens, i);
    if next < |tokens| {
      Suffix(tokens, next);
    }
  }

  lemma TestRead(tokens: seq<string>, i: nat, from: nat, r: Option<Ast>, next: nat)
    requires i < |tokens| && from == i + 1 && next <= |tokens| && tokens[i] != "" && tokens[i] != "!"
    requires tokens[i] != "("
    requires ReadsTest(tokens, tokens[i], from, r, next)
    ensures ReadsPrimary(tokens, i, r, next)
  {
    Suffix(tokens, i);
  }

  // ---------- the tests, from an index on ----------

  /** The token at an index; "" behind the last one. */
  function TokenAt(tokens: seq<string>, i: nat): string {
    if i < |tokens| then tokens[i] else ""
  }

  ghost predicate ReadsTest(tokens: seq<string>, path: string, i: nat, r: Option<Ast>, next: nat)
    requires i <= |tokens| && next <= |tokens|
  {
    Reads(tokens, r, next, ParseTest(path, tokens[i..]))
  }

  lemma PeekAt(tokens: seq<string>, i: nat)
    requires i <= |tokens|
    ensures Peek(tokens[i..]) == TokenAt(tokens, i)
    ensures i < |tokens| ==> tokens[i..][0] == tokens[i] && tokens[i..][1..] == tokens[i + 1..]
    ensures i + 1 < |tokens| ==> tokens[i..][1] == tokens[i + 1] && tokens[i..][2..] == tokens[i + 2..]
  {
  }

  lemma InRead(tokens: seq<string>, path: string, i: nat)
    requires i < |tokens| && tokens[i] == "in"
    ensures var token := TokenAt(tokens, i + 1);
            if token == "" || ParseList(token).None? then ReadsTest(tokens, path, i, None, i)
            else ReadsTest(tokens, path, i, Some(In(path, ParseList(token).value)), i + 2)
  {
    PeekAt(tokens, i);
    PeekAt(tokens, i + 1);
  }

  lemma CompareRead(tokens: seq<string>, path: string, i: nat)
    requires i < |tokens| && tokens[i] != "in" && tokens[i] != "==" && Comparator(tokens[i]).Some?
    ensures var token := TokenAt(tokens, i + 1);
            if token == "" || !IsNumber(token) then ReadsTest(tokens, path, i, None, i)
            else ReadsTest(tokens, path, i, Some(Compare(Comparator(tokens[i]).value, path, token)), i + 2)
  {
    PeekAt(tokens, i);
    PeekAt(tokens, i + 1);
  }

  lemma StringOperandAt(tokens: seq<string>, i: nat)
    requires i <= |tokens|
    ensures StringOperand(tokens[i..]) ==
            if TokenAt(tokens, i) == "" || ParseString(TokenAt(tokens, i)).None? then SyntaxError
            else Parsed(ParseString(TokenAt(tokens, i)).value, tokens[i + 1..])
  {
    PeekAt(tokens, i);
  }

  lemma LikeRead(tokens: seq<string>, path: string, i: nat)
    requires i < |tokens| && tokens[i] == "like"
    ensures var token := TokenAt(tokens, i + 1);
            if token == "" || ParseString(token).None? then ReadsTest(tokens, path, i, None, i)
            else ReadsTest(tokens, path, i, Some(Like(path, ParseString(token).value)), i + 2)
  {
    PeekAt(tokens, i);
    StringOperandAt(tokens, i + 1);
  }

  lemma HasRead(tokens: seq<string>, path: string, i: nat)
    requires i < |tokens| && tokens[i] == "has"
    ensures if TokenAt(tokens, i + 1) == "" then ReadsTest(tokens, path, i, None, i)
            else ReadsTest(tokens, path, i, Some(Has(path, tokens[i + 1])), i + 2)
  {
    PeekAt(tokens, i);
    PeekAt(tokens, i + 1);
  }

  /** What stands for the operand of `==`: the token itself, or the quoted id behind an entity type. */
  predicate IsEntity(tokens: seq<string>, i: nat) {
    IsEntityType(TokenAt(tokens, i)) && TokenAt(tokens, i + 1) != "" && TokenAt(tokens, i + 1)[0] == '\"'
  }

  lemma EqualsRead(tokens: seq<string>, path: string, i: nat)
    requires i < |tokens| && tokens[i] == "=="
    ensures var at := if IsEntity(tokens, i + 1) then i + 2 else i + 1;
            var token := TokenAt(tokens, at);
            if token == "" || ParseLiteral(token).None? then ReadsTest(tokens, path, i, None, i)
            else ReadsTest(tokens, path, i, Some(Equals(path, ParseLiteral(token).value)), at + 1)
  {
    PeekAt(tokens, i);
    PeekAt(tokens, i + 1);
    if i + 2 <= |tokens| {
      PeekAt(tokens, i + 2);
    }
  }

  /** None of the operators that a test may start with. */
  predicate IsNoOperator(token: string) {
    token != "in" && token != "==" && Comparator(token).None? && token != "like" && token != "has"
  }

  lemma ContainsRead(tokens: seq<string>, path: string, i: nat)
    requires i <= |tokens| && IsNoOperator(TokenAt(tokens, i)) && Text.Includes(path, CONTAINS)
    ensures var token := TokenAt(tokens, i + 1);
            if TokenAt(tokens, i) == "(" && token != "" && ParseString(token).Some? && TokenAt(tokens, i + 2) == ")"
            then ReadsTest(tokens, path, i,
                           Some(Contains(path[..Text.IndexOf(path, CONTAINS).value], ParseString(token).value)), i + 3)
            else ReadsTest(tokens, path, i, None, i)
  {
    PeekAt(tokens, i);
    if i + 1 <= |tokens| {
      PeekAt(tokens, i + 1);
    }
    if i + 2 <= |tokens| {
      PeekAt(tokens, i + 2);
    }
  }

  lemma AttributeRead(tokens: seq<string>, path: string, i: nat)
    requires i <= |tokens| && IsNoOperator(TokenAt(tokens, i)) && !Text.Includes(path, CONTAINS)
    ensures ReadsTest(tokens, path, i,
                      if TokenAt(tokens, i) in {"", "&&", "||", ")"} then Some(Attribute(path)) else None, i)
  {
    PeekAt(tokens, i);
  }

  lemma NothingRead(tokens: seq<string>, i: nat)
    requires i <= |tokens| && (i == |tokens| || tokens[i] == "")
    ensures ReadsPrimary(tokens, i, None, i)
  {
    if i < |tokens| {
      Suffix(tokens, i);
    }
  }

  // ---------- the parser with its shared index ----------

  class Parser {
    const tokens: seq<string>
    var index: nat

    constructor (tokens: seq<string>)
      ensures this.tokens == tokens && index == 0
    {
      this.tokens := tokens;
      index := 0;
    }

    ghost predicate Valid()
      reads this
    {
      index <= |tokens|
    }

    method ParseOrAt() returns (r: Option<Ast>)
      requires Valid()
      modifies this
      ensures Valid() && index >= old(index)
      ensures ReadsOr(tokens, old(index), r, index)
      ensures r.Some? ==> index > old(index)
      decreases |tokens| - index, 4
    {
      r := ParseAndAt();
      OrStarts(tokens, old(index), r, index);
      if r.Some? {
        r := OrChainAt(r.value, old(index));
      }
    }

    /** The loop over further operands, from the tree so far. */
    method OrChainAt(left: Ast, ghost start: nat) returns (r: Option<Ast>)
      requires Valid() && start <= |tokens| && OrGoesOn(tokens, start, left, index)
      modifies this
      ensures Valid() && index >= old(index)
      ensures ReadsOr(tokens, start, r, index)
      decreases |tokens| - index, 3
    {
      r := Some(left);
      while r.Some? && index < |tokens| && tokens[index] == "||"
        invariant Valid() && index >= old(index)
        invariant if r.None? then ReadsOr(tokens, start, r, index) else OrGoesOn(tokens, start, r.value, index)
        decreases |tokens| - index
      {
        ghost var at := index;
        index := index + 1;
        ghost var from := index;
        var right := ParseAndAt();
        OrTurn(tokens, start, r.value, at, from, right, index);
        r := if right.None? then None else Some(Or(r.value, right.value));
      }
      if r.Some? {
        OrEnds(tokens, start, r.value, index);
      }
    }

    method ParseAndAt() returns (r: Option<Ast>)
      requires Valid()
      modifies this
      ensures Valid() && index >= old(index)
      ensures ReadsAnd(tokens, old(index), r, index)
      ensures r.Some? ==> index > old(index)
      decreases |tokens| - index, 2
    {
      r := ParsePrimaryAt();
      AndStarts(tokens, old(index), r, index);
      if r.Some? {
        r := AndChainAt(r.value, old(index));
      }
    }

    /** The loop over further operands, from the tree so far. */
    method AndChainAt(left: Ast, ghost start: nat) returns (r: Option<Ast>)
      requires Valid() && start <= |tokens| && AndGoesOn(tokens, start, left, index)
      modifies this
      ensures Valid() && index >= old(index)
      ensures ReadsAnd(tokens, start, r, index)
      decreases |tokens| - index, 1
    {
      r := Some(left);
      while r.Some? && index < |tokens| && tokens[index] == "&&"
        invariant Valid() && index >= old(index)
        invariant if r.None? then ReadsAnd(tokens, start, r, index) else AndGoesOn(tokens, start, r.value, index)
        decreases |tokens| - index
      {
        ghost var at := index;
        index := index + 1;
        ghost var from := index;
        var right := ParsePrimaryAt();
        AndTurn(tokens, start, r.value, at, from, right, index);
        r := if right.None? then None else Some(And(r.value, right.value));
      }
      if r.Some? {
        AndEnds(tokens, start, r.value, index);
      }
    }

    method ParsePrimaryAt() returns (r: Option<Ast>)
      requires Valid()
      modifies this
      ensures Valid() && index >= old(index)
      ensures ReadsPrimary(tokens, old(index), r, index)
      ensures r.Some? ==> index > old(index)
      decreases |tokens| - index, 0
    {
      if index == |tokens| || tokens[index] == "" {
        NothingRead(tokens, index);
        return None;
      }
      if tokens[index] == "!" {
        index := index + 1;
        r := ParsePrimaryAt();
        NotRead(tokens, old(index), r, index);
        r := if r.Some? then Some(Not(r.value)) else None;
      } else if tokens[index] == "(" {
        index := index + 1;
        r := ParseOrAt();
        GroupRead(tokens, old(index), r, index);
        if r.Some? && index < |tokens| && tokens[index] == ")" {
          index := index + 1;
        } else {
          r := None;
        }
      } else {
        r := ParseTestAt();
      }
    }

    /** `consume()`; None where it throws at the end of the tokens. */
    method Consume() returns (token: Option<string>)
      requires Valid()
      modifies this
      ensures Valid() && old(index) <= index
      ensures token == if TokenAt(tokens, old(index)) == "" then None else Some(TokenAt(tokens, old(index)))
      ensures token.Some? ==> index == old(index) + 1
    {
      if index == |tokens| || tokens[index] == "" {
        return None;
      }
      token := Some(tokens[index]);
      index := index + 1;
    }

    /** The identifier path, and the test on it. */
    method ParseTestAt() returns (r: Option<Ast>)
      requires Valid() && index < |tokens| && tokens[index] != "" && tokens[index] != "!" && tokens[index] != "("
      modifies this
      ensures Valid() && index > old(index)
      ensures ReadsPrimary(tokens, old(index), r, index)
    {
      ghost var start := index;
      var path := tokens[index];
      index := index + 1;
      ghost var from := index;
      var next := if index < |tokens| then tokens[index] else "";
      if next == "in" {
        r := InAt(path);
      } else if next == "==" {
        r := EqualsAt(path);
      } else if Comparator(next).Some? {
        r := CompareAt(path);
      } else if next == "like" {
        r := LikeAt(path);
      } else if next == "has" {
        r := HasAt(path);
      } else {
        r := CallOrAttributeAt(path);
      }
      TestRead(tokens, start, from, r, index);
    }

    method InAt(path: string) returns (r: Option<Ast>)
      requires Valid() && index < |tokens| && tokens[index] == "in"
      modifies this
      ensures Valid() && index >= old(index) && ReadsTest(tokens, path, old(index), r, index)
    {
      InRead(tokens, path, index);
      index := index + 1;
      var token := Consume();
      if token.None? {
        return None;
      }
      var values := ParseList(token.value);
      r := if values.None? then None else Some(In(path, values.value));
    }

    method EqualsAt(path: string) returns (r: Option<Ast>)
      requires Valid() && index < |tokens| && tokens[index] == "=="
      modifies this
      ensures Valid() && index >= old(index) && ReadsTest(tokens, path, old(index), r, index)
    {
      EqualsRead(tokens, path, index);
      index := index + 1;
      var token := Consume();
      if token.None? {
        return None;
      }
      if IsEntityType(token.value) && index < |tokens| && tokens[index] != "" && tokens[index][0] == '\"' {
        token := Consume();
      }
      var value := ParseLiteral(token.value);
      r := if value.None? then None else Some(Equals(path, value.value));
    }

    method CompareAt(path: string) returns (r: Option<Ast>)
      requires Valid() && index < |tokens| && tokens[index] != "in" && tokens[index] != "=="
      requires Comparator(tokens[index]).Some?
      modifies this
      ensures Valid() && index >= old(index) && ReadsTest(tokens, path, old(index), r, index)
    {
      CompareRead(tokens, path, index);
      var op := Comparator(tokens[index]).value;
      index := index + 1;
      var token := Consume();
      if token.None? {
        return None;
      }
      r := if IsNumber(token.value) then Some(Compare(op, path, token.value)) else None;
    }

    method LikeAt(path: string) returns (r: Option<Ast>)
      requires Valid() && index < |tokens| && tokens[index] == "like"
      modifies this
      ensures Valid() && index >= old(index) && ReadsTest(tokens, path, old(index), r, index)
    {
      LikeRead(tokens, path, index);
      index := index + 1;
      var token := Consume();
      if token.None? {
        return None;
      }
      var pattern := ParseString(token.value);
      r := if pattern.None? then None else Some(Like(path, pattern.value));
    }

    method HasAt(path: string) returns (r: Option<Ast>)
      requires Valid() && index < |tokens| && tokens[index] == "has"
      modifies this
      ensures Valid() && index >= old(index) && ReadsTest(tokens, path, old(index), r, index)
    {
      HasRead(tokens, path, index);
      index := index + 1;
      var prop := Consume();
      r := if prop.None? then None else Some(Has(path, prop.value));
    }

    method CallOrAttributeAt(path: string) returns (r: Option<Ast>)
      requires Valid() && IsNoOperator(TokenAt(tokens, index))
      modifies this
      ensures Valid() && index >= old(index) && ReadsTest(tokens, path, old(index), r, index)
    {
      if Text.Includes(path, CONTAINS) {
        r := ContainsAt(path);
      } else {
        AttributeRead(tokens, path, index);
        var next := if index < |tokens| then tokens[index] else "";
        r := if next == "" || next == "&&" || next == "||" || next == ")" then Some(Attribute(path)) else None;
      }
    }

    method ContainsAt(path: string) returns (r: Option<Ast>)
      requires Valid() && IsNoOperator(TokenAt(tokens, index)) && Text.Includes(path, CONTAINS)
      modifies this
      ensures Valid() && index >= old(index) && ReadsTest(tokens, path, old(index), r, index)
    {
      ContainsRead(tokens, path, index);
      var realPath := path[..Text.IndexOf(path, CONTAINS).value];
      var open := Consume();
      if open != Some("(") {
        return None;
      }
      var token := Consume();
      if token.None? || ParseString(token.value).None? {
        return None;
      }
      var close := Consume();
      r := if close == Some(")") then Some(Contains(realPath, ParseString(token.value).value)) else None;
    }
  }

  /** The operand parsers only ever drop tokens from the front. */
  lemma RestIsSuffix(path: string, ts: seq<string>)
    ensures var r := ParseTest(path, ts); r.Parsed? ==> r.rest == ts[|ts| - |r.rest|..]
  {
  }
}
