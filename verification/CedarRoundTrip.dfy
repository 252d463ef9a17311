/**
 Printing a condition and reading it back.

 `TokensAt` writes a syntax tree with as few parentheses as the grammar allows;
 `Render` lays the tokens out with any whitespace that keeps them apart.  Lexing
 and parsing the result gives the tree again.
 */
module CedarRoundTrip {
  import opened Wrappers
  import opened CedarLexer
  import opened CedarLiterals
  import opened CedarParser
  import Text

  // ---------- printing ----------

  /** How tightly the context binds: 0 in an `||` chain, 1 in an `&&` chain, 2 where one operand is taken. */
  function TokensAt(e: Ast, level: nat): seq<string> {
    match e
    case Or(l, r) => Grouped(TokensAt(l, 0) + ["||"] + TokensAt(r, 1), level > 0)
    case And(l, r) => Grouped(TokensAt(l, 1) + ["&&"] + TokensAt(r, 2), level > 1)
    case Not(x) => ["!"] + TokensAt(x, 2)
    case _ => LeafTokens(e)
  }

  function Grouped(ts: seq<string>, parentheses: bool): seq<string> {
    if parentheses then ["("] + ts + [")"] else ts
  }

  function LeafTokens(e: Ast): seq<string>
    requires !e.Or? && !e.And? && !e.Not?
  {
    match e
    case Has(path, prop) => [path, "has", prop]
    case In(path, values) => [path, "in", QuoteList(values)]
    case Like(path, pattern) => [path, "like", Quote(pattern)]
    case Contains(path, substring) => [path + CONTAINS, "(", Quote(substring), ")"]
    case Equals(path, value) => [path, "==", WriteLiteral(value)]
    case Compare(op, path, number) => [path, Symbol(op), number]
    case Attribute(path) => [path]
  }

  /** Any layout: white space before, between and after the tokens. */
  function Render(ts: seq<string>, gaps: seq<string>): string
    requires |gaps| == |ts| + 1
  {
    if ts == [] then gaps[0] else gaps[0] + ts[0] + Render(ts[1..], gaps[1..])
  }

  // ---------- what can be written ----------

  predicate IsWord(s: string) {
    s != "" && forall i | 0 <= i < |s| :: !IsStop(s[i])
  }

  predicate NoBrackets(s: string) {
    forall i | 0 <= i < |s| :: s[i] != '[' && s[i] != ']'
  }

  ghost predicate WritableItems(items: seq<string>) {
    forall i | 0 <= i < |items| :: Printable(items[i]) && NoBrackets(items[i])
  }

  /**
   The restrictions on names and literals: paths and properties are words, an attribute or the receiver of
   `contains` does not itself spell `.contains`, strings hold no
   control characters, and the strings of a list no brackets.
   */
  ghost predicate Writable(e: Ast) {
    match e
    case And(l, r) => Writable(l) && Writable(r)
    case Or(l, r) => Writable(l) && Writable(r)
    case Not(x) => Writable(x)
    case Has(path, prop) => IsWord(path) && IsWord(prop)
    case In(path, values) => IsWord(path) && WritableItems(values)
    case Like(path, pattern) => IsWord(path) && Printable(pattern)
    case Contains(path, substring) =>
      (path == "" || IsWord(path)) && !Text.Includes(path, CONTAINS) && Printable(substring)
    case Equals(path, value) =>
      IsWord(path) && WritableLiteral(value) && (value.ListLit? ==> WritableItems(value.items))
    case Compare(_, path, number) => IsWord(path) && IsNumber(number)
    case Attribute(path) => IsWord(path) && !Text.Includes(path, CONTAINS)
  }

  predicate IsOperator(t: string) {
    t in {"&&", "||", "==", ">=", "<=", ">", "<", "!", "(", ")"}
  }

  ghost predicate IsQuoted(t: string) {
    exists s :: t == Quote(s)
  }

  ghost predicate IsList(t: string) {
    exists items :: WritableItems(items) && t == QuoteList(items)
  }

  ghost predicate IsToken(t: string) {
    IsOperator(t) || IsWord(t) || IsQuoted(t) || IsList(t)
  }

  /** The lexer keeps `t` apart from a text that follows it directly. */
  predicate Fits(t: string, rest: string) {
    rest == "" || IsSpace(rest[0]) ||
    if IsWord(t) then IsStop(rest[0]) else (t == ">" || t == "<") ==> rest[0] != '='
  }

  predicate IsGap(s: string) {
    forall i | 0 <= i < |s| :: IsSpace(s[i])
  }

  ghost predicate LegalGaps(ts: seq<string>, gaps: seq<string>) {
    && |gaps| == |ts| + 1
    && (forall i | 0 <= i < |gaps| :: IsGap(gaps[i]))
    && (forall i | 0 < i < |ts| :: gaps[i] == "" ==> Fits(ts[i - 1], ts[i]))
  }

  ghost predicate AllTokens(ts: seq<string>) {
    forall i | 0 <= i < |ts| :: IsToken(ts[i])
  }

  // ---------- the lexer takes one token ----------

  lemma {:induction false} WordLenOf(w: string, rest: string)
    requires forall i | 0 <= i < |w| :: !IsStop(w[i])
    requires rest == "" || IsStop(rest[0])
    ensures WordLen(w + rest) == |w|
    decreases |w|
  {
    if w == "" {
      assert w + rest == rest;
    } else {
      WordLenOf(w[1..], rest);
      assert (w + rest)[1..] == w[1..] + rest;
    }
  }

  lemma {:induction false} StringLenOf(s: string, rest: string)
    ensures StringLen(EscapeBody(s) + "\"" + rest) == |EscapeBody(s)| + 1
    decreases |s|
  {
    var whole := EscapeBody(s) + "\"" + rest;
    if s == "" {
      assert whole == "\"" + rest;
    } else {
      StringLenOf(s[1..], rest);
      var tail := EscapeBody(s[1..]) + "\"" + rest;
      if s[0] == '\"' || s[0] == '\\' {
        assert whole == ['\\', s[0]] + tail && whole[2..] == tail;
      } else {
        assert whole == [s[0]] + tail && whole[1..] == tail;
      }
    }
  }

  lemma {:induction false} BracketLenOf(body: string, rest: string)
    requires NoBrackets(body)
    ensures BracketLen(body + "]" + rest, 1) == |body| + 1
    decreases |body|
  {
    var whole := body + "]" + rest;
    if body == "" {
      assert whole == "]" + rest;
    } else {
      BracketLenOf(body[1..], rest);
      assert whole[1..] == body[1..] + "]" + rest;
    }
  }

  lemma {:induction false} EscapedHasNoBrackets(s: string)
    requires NoBrackets(s)
    ensures NoBrackets(EscapeBody(s))
  {
    if s != "" {
      EscapedHasNoBrackets(s[1..]);
    }
  }

  lemma {:induction false} ItemsHaveNoBrackets(items: seq<string>)
    requires items != [] && WritableItems(items)
    ensures NoBrackets(QuoteItems(items))
  {
    EscapedHasNoBrackets(items[0]);
    if |items| > 1 {
      ItemsHaveNoBrackets(items[1..]);
    }
  }

  lemma ListTokenLen(items: seq<string>, rest: string)
    requires WritableItems(items)
    ensures TokenLen(QuoteList(items) + rest) == |QuoteList(items)|
  {
    var body := if items == [] then "" else QuoteItems(items);
    if items != [] {
      ItemsHaveNoBrackets(items);
    }
    BracketLenOf(body, rest);
    assert QuoteList(items) + rest == "[" + (body + "]" + rest);
    assert (QuoteList(items) + rest)[1..] == body + "]" + rest;
  }

  lemma QuotedTokenLen(s: string, rest: string)
    ensures TokenLen(Quote(s) + rest) == |Quote(s)|
  {
    StringLenOf(s, rest);
    var whole := Quote(s) + rest;
    assert whole[0] == '\"' && !TwoCharOperator(whole);
    assert whole[1..] == EscapeBody(s) + "\"" + rest;
  }

  lemma OperatorTokenLen(t: string, rest: string)
    requires IsOperator(t) && Fits(t, rest)
    ensures TokenLen(t + rest) == |t|
  {
    var s := t + rest;
    assert s[0] == t[0] && (|t| > 1 ==> s[1] == t[1]) && (|t| == 1 && rest != "" ==> s[1] == rest[0]);
  }

  lemma WordTokenLen(t: string, rest: string)
    requires IsWord(t) && Fits(t, rest)
    ensures TokenLen(t + rest) == |t|
  {
    WordLenOf(t, rest);
    assert (t + rest)[0] == t[0] && !IsStop(t[0]);
  }

  lemma LexToken(t: string, rest: string)
    requires IsToken(t) && Fits(t, rest)
    ensures Lex(t + rest) == Onto([t], Lex(rest))
  {
    assert t != "" && !IsSpace(t[0]);
    assert TokenLen(t + rest) == |t| by {
      if IsOperator(t) {
        OperatorTokenLen(t, rest);
      } else if IsWord(t) {
        WordTokenLen(t, rest);
      } else if IsQuoted(t) {
        var s :| t == Quote(s);
        QuotedTokenLen(s, rest);
      } else {
        var items :| WritableItems(items) && t == QuoteList(items);
        ListTokenLen(items, rest);
      }
    }
    assert (t + rest)[..|t|] == t && (t + rest)[|t|..] == rest;
  }

  lemma {:induction false} LexGap(gap: string, rest: string)
    requires IsGap(gap)
    ensures Lex(gap + rest) == Lex(rest)
    decreases |gap|
  {
    if gap == "" {
      assert gap + rest == rest;
    } else {
      LexGap(gap[1..], rest);
      assert (gap + rest)[1..] == gap[1..] + rest;
    }
  }

  /** Any legal layout of a token list lexes to that list. */
  lemma {:induction false} LexRender(ts: seq<string>, gaps: seq<string>)
    requires AllTokens(ts) && LegalGaps(ts, gaps)
    ensures Lex(Render(ts, gaps)) == Some(ts)
    decreases |ts|
  {
    if ts == [] {
      LexGap(gaps[0], "");
      assert gaps[0] + "" == gaps[0];
    } else {
      var rest := Render(ts[1..], gaps[1..]);
      LexRender(ts[1..], gaps[1..]);
      assert Fits(ts[0], rest) by {
        NextFits(ts, gaps);
      }
      LexToken(ts[0], rest);
      LexGap(gaps[0], ts[0] + rest);
      assert gaps[0] + ts[0] + rest == gaps[0] + (ts[0] + rest);
      assert ts == [ts[0]] + ts[1..];
    }
  }

  lemma NextFits(ts: seq<string>, gaps: seq<string>)
    requires ts != [] && AllTokens(ts) && LegalGaps(ts, gaps)
    ensures Fits(ts[0], Render(ts[1..], gaps[1..]))
  {
    var rest := Render(ts[1..], gaps[1..]);
    if gaps[1] != "" {
      assert rest[0] == gaps[1][0];
    } else if |ts| > 1 {
      assert IsToken(ts[1]) && ts[1] != "";
      assert rest[0] == ts[1][0];
    }
  }

  // ---------- the parser reads what was printed ----------

  predicate IsNumberChar(c: char) {
    IsDigit(c) || c == '+' || c == '-' || c == '.' || c == 'e' || c == 'E'
  }

  predicate NumberText(s: string) {
    forall k | 0 <= k < |s| :: IsNumberChar(s[k])
  }

  lemma IntegerText(s: string)
    ensures NumberText(s[..IntegerLen(s)])
  {
  }

  lemma FractionText(s: string)
    ensures NumberText(s[..FractionLen(s)])
  {
    var f := FractionLen(s);
    forall k | 0 <= k < f ensures IsNumberChar(s[k]) {
      assert k > 0 ==> s[k] == s[1..][k - 1];
    }
  }

  lemma ExponentText(s: string)
    requires IsExponent(s)
    ensures NumberText(s)
  {
    forall k | 0 <= k < |s| ensures IsNumberChar(s[k]) {
      ExponentChars(s, k);
    }
  }

  lemma NumberChars(t: string)
    requires IsNumber(t)
    ensures t != "" && NumberText(t)
  {
    var s := DropSign(t);
    var i := IntegerLen(s);
    UnsignedChars(s, i, FractionLen(s[i..]));
    SignedChars(t);
  }

  lemma UnsignedChars(s: string, i: nat, f: nat)
    requires i == IntegerLen(s) && f == FractionLen(s[i..]) && IsExponent(s[i + f..])
    ensures NumberText(s)
  {
    IntegerText(s);
    FractionText(s[i..]);
    ExponentText(s[i + f..]);
    ThreeTexts(s, i, f);
  }

  lemma SignedChars(t: string)
    requires NumberText(DropSign(t))
    ensures NumberText(t)
  {
    if t != "" && t[0] == '-' {
      assert t == ['-'] + DropSign(t);
    }
  }

  lemma ThreeTexts(s: string, i: nat, f: nat)
    requires i + f <= |s| && NumberText(s[..i]) && NumberText(s[i..][..f]) && NumberText(s[i + f..])
    ensures NumberText(s)
  {
    assert s == s[..i] + s[i..][..f] + s[i + f..];
  }

  lemma ExponentChars(e: string, k: nat)
    requires IsExponent(e) && k < |e|
    ensures IsNumberChar(e[k])
  {
    var signed := e[1] == '+' || e[1] == '-';
    var d := if signed then e[2..] else e[1..];
    if k > 1 || (k == 1 && !signed) {
      assert e[k] == d[if signed then k - 2 else k - 1];
    }
  }

  lemma NotEntityType(t: string)
    requires t != "" && t[|t| - 1] != ':'
    ensures !IsEntityType(t)
  {
    assert |t| >= 2 ==> t[|t| - 2..][1] == t[|t| - 1];
  }

  lemma NumberCharIsNoStop(c: char)
    requires IsNumberChar(c)
    ensures !IsStop(c) && c != ':'
  {
  }

  lemma NumberIsWord(t: string)
    requires IsNumber(t)
    ensures IsWord(t) && !IsEntityType(t)
  {
    NumberChars(t);
    forall k | 0 <= k < |t| ensures !IsStop(t[k]) && t[k] != ':' {
      NumberCharIsNoStop(t[k]);
    }
    NotEntityType(t);
  }

  /** What may follow an operand inside a larger condition. */
  predicate Follows(rest: seq<string>) {
    Peek(rest) in {"", "&&", "||", ")"}
  }

  lemma EqualsReadBack(v: Literal, rest: seq<string>)
    requires WritableLiteral(v)
    ensures EqualsOperand([WriteLiteral(v)] + rest) == Parsed(v, rest)
  {
    var t := WriteLiteral(v);
    LiteralReadBack(v);
    assert t != "" && !IsEntityType(t) by {
      if v.NumberLit? {
        NumberIsWord(t);
      } else {
        assert t[|t| - 1] != ':';
        NotEntityType(t);
      }
    }
    assert ([t] + rest)[1..] == rest;
  }

  /** An occurrence of `.contains` in `path.contains` lies in `path` or starts at its end. */
  lemma ContainsPlace(path: string, k: nat)
    requires Text.HasAt(path + CONTAINS, k, CONTAINS) && k != |path|
    ensures Text.HasAt(path, k, CONTAINS)
  {
    var s := path + CONTAINS;
    if k + |CONTAINS| <= |path| {
      assert path[k..k + |CONTAINS|] == s[k..k + |CONTAINS|];
    } else {
      Text.HasAtChar(s, k, CONTAINS, |path| - k);
      NoSecondDot(|path| - k);
      assert false;
    }
  }

  lemma NoSecondDot(j: nat)
    requires 0 < j < |CONTAINS|
    ensures CONTAINS[j] != '.'
  {
    assert CONTAINS == ['.', 'c', 'o', 'n', 't', 'a', 'i', 'n', 's'];
  }

  /** `.contains` first occurs in `path.contains` where the call starts. */
  lemma ContainsSplit(path: string)
    requires !Text.Includes(path, CONTAINS)
    ensures Text.IndexOf(path + CONTAINS, CONTAINS) == Some(|path|)
  {
    var s := path + CONTAINS;
    EndHasIt(path, CONTAINS);
    IndexOfIs(s, CONTAINS, |path|);
    var k := Text.IndexOf(s, CONTAINS).value;
    if k != |path| {
      ContainsPlace(path, k);
      IndexOfIs(path, CONTAINS, k);
    }
  }

  lemma EndHasIt(s: string, t: string)
    ensures Text.HasAt(s + t, |s|, t)
  {
    assert (s + t)[|s|..|s| + |t|] == t;
  }

  lemma IndexOfIs(s: string, t: string, k: nat)
    requires Text.HasAt(s, k, t)
    ensures Text.IndexOf(s, t).Some? && Text.IndexOf(s, t).value <= k && Text.HasAt(s, Text.IndexOf(s, t).value, t)
  {
  }

  lemma ContainsReadBack(path: string, substring: string, rest: seq<string>)
    requires !Text.Includes(path, CONTAINS) && Printable(substring)
    ensures ParseTest(path + CONTAINS, ["(", Quote(substring), ")"] + rest) == Parsed(Contains(path, substring), rest)
  {
    var ts := ["(", Quote(substring), ")"] + rest;
    ContainsSplit(path);
    LiteralReadBack(StringLit(substring));
    StringReadBack(substring, "");
    assert Quote(substring) + "" == Quote(substring);
    ThreeTokens("(", Quote(substring), ")", rest);
    assert (path + CONTAINS)[..|path|] == path;
    assert StringOperand(ts[1..]) == Parsed(substring, [")"] + rest);
    ContainsTest(path + CONTAINS, |path|, ts);
  }

  lemma ThreeTokens(a: string, b: string, c: string, rest: seq<string>)
    ensures var ts := [a, b, c] + rest;
            ts[1..] == [b, c] + rest && ts[1..][1..] == [c] + rest && ts[1..][1..][1..] == rest
    ensures ([b, c] + rest)[1..] == [c] + rest && ([c] + rest)[1..] == rest
  {
  }

  lemma ContainsTest(path: string, at: nat, ts: seq<string>)
    requires Text.IndexOf(path, CONTAINS) == Some(at) && at <= |path| && Peek(ts) == "("
    ensures ParseTest(path, ts) == ContainsCall(path, at, ts)
  {
    NoOperator("(");
    var next := Peek(ts);
    assert next != "in" && next != "==" && Comparator(next).None? && next != "like" && next != "has";
  }

  lemma HasReadBack(path: string, prop: string, rest: seq<string>)
    requires prop != ""
    ensures ParseTest(path, ["has", prop] + rest) == Parsed(Has(path, prop), rest)
  {
    var ts := ["has", prop] + rest;
    assert ts[1..] == [prop] + rest && ts[2..] == rest;
  }

  lemma InReadBack(path: string, values: seq<string>, rest: seq<string>)
    requires WritableItems(values)
    ensures ParseTest(path, ["in", QuoteList(values)] + rest) == Parsed(In(path, values), rest)
  {
    var ts := ["in", QuoteList(values)] + rest;
    ListReadBack(values);
    assert ts[1..] == [QuoteList(values)] + rest && ts[1..][1..] == rest;
  }

  lemma LikeReadBack(path: string, pattern: string, rest: seq<string>)
    requires Printable(pattern)
    ensures ParseTest(path, ["like", Quote(pattern)] + rest) == Parsed(Like(path, pattern), rest)
  {
    var ts := ["like", Quote(pattern)] + rest;
    StringReadBack(pattern, "");
    assert Quote(pattern) + "" == Quote(pattern);
    assert ts[1..] == [Quote(pattern)] + rest && ts[1..][1..] == rest;
  }

  lemma EqualsTestReadBack(path: string, v: Literal, rest: seq<string>)
    requires WritableLiteral(v)
    ensures ParseTest(path, ["==", WriteLiteral(v)] + rest) == Parsed(Equals(path, v), rest)
  {
    var ts := ["==", WriteLiteral(v)] + rest;
    EqualsReadBack(v, rest);
    assert ts[1..] == [WriteLiteral(v)] + rest;
  }

  lemma SymbolIsComparator(op: Comparison)
    ensures Comparator(Symbol(op)) == Some(op) && Symbol(op) != "in" && Symbol(op) != "=="
  {
    assert Symbol(op)[0] == '>' || Symbol(op)[0] == '<';
  }

  lemma CompareReadBack(op: Comparison, path: string, number: string, rest: seq<string>)
    requires IsNumber(number)
    ensures ParseTest(path, [Symbol(op), number] + rest) == Parsed(Compare(op, path, number), rest)
  {
    SymbolIsComparator(op);
    CompareTest(path, [Symbol(op), number] + rest, op);
    NumberChars(number);
    TwoTokens(Symbol(op), number, rest);
  }

  lemma TwoTokens(a: string, b: string, rest: seq<string>)
    ensures ([a, b] + rest)[1..] == [b] + rest && ([b] + rest)[1..] == rest
  {
  }

  lemma CompareTest(path: string, ts: seq<string>, op: Comparison)
    requires ts != [] && ts[0] != "in" && ts[0] != "==" && Comparator(ts[0]) == Some(op)
    requires Peek(ts[1..]) != "" && IsNumber(ts[1])
    ensures ParseTest(path, ts) == Parsed(Compare(op, path, ts[1]), ts[1..][1..])
  {
  }

  lemma TestReadBack(e: Ast, rest: seq<string>)
    requires Writable(e) && !e.Or? && !e.And? && !e.Not? && Follows(rest)
    ensures ParseTest(LeafTokens(e)[0], LeafTokens(e)[1..] + rest) == Parsed(e, rest)
  {
    var ts := LeafTokens(e)[1..];
    match e
    case Has(path, prop) => assert ts == ["has", prop]; HasReadBack(path, prop, rest);
    case In(path, values) => assert ts == ["in", QuoteList(values)]; InReadBack(path, values, rest);
    case Like(path, pattern) => assert ts == ["like", Quote(pattern)]; LikeReadBack(path, pattern, rest);
    case Contains(path, substring) =>
      assert ts == ["(", Quote(substring), ")"]; ContainsReadBack(path, substring, rest);
    case Equals(path, value) => assert ts == ["==", WriteLiteral(value)]; EqualsTestReadBack(path, value, rest);
    case Compare(op, path, number) => assert ts == [Symbol(op), number]; CompareReadBack(op, path, number, rest);
    case Attribute(path) => AttributeReadBack(path, rest); assert ts + rest == rest;
  }

  lemma NoOperator(t: string)
    requires t in {"", "&&", "||", ")", "("}
    ensures t != "in" && t != "==" && Comparator(t).None? && t != "like" && t != "has"
  {
    assert t == "" || t[0] == '&' || t[0] == '|' || t[0] == ')' || t[0] == '(';
  }

  lemma AttributeReadBack(path: string, rest: seq<string>)
    requires !Text.Includes(path, CONTAINS) && Follows(rest)
    ensures ParseTest(path, rest) == Parsed(Attribute(path), rest)
  {
    NoOperator(Peek(rest));
  }

  lemma ContainsIsWord(path: string)
    requires path == "" || IsWord(path)
    ensures IsWord(path + CONTAINS)
  {
    var s := path + CONTAINS;
    forall i | 0 <= i < |s| ensures !IsStop(s[i]) {
      if i < |path| {
        assert s[i] == path[i];
      } else {
        assert s[i] == CONTAINS[i - |path|];
      }
    }
  }

  lemma LeafStartsWithWord(e: Ast)
    requires Writable(e) && !e.Or? && !e.And? && !e.Not?
    ensures IsWord(LeafTokens(e)[0])
  {
    if e.Contains? {
      ContainsIsWord(e.path);
    }
  }

  /** A word is neither `!` nor `(`, so the parser takes it as a path. */
  lemma PathReadBack(path: string, ts: seq<string>)
    requires IsWord(path)
    ensures ParsePrimary([path] + ts) == ParseTest(path, ts)
  {
    assert !IsStop(path[0]);
    assert ([path] + ts)[1..] == ts;
  }

  lemma FrontToken(ts: seq<string>, rest: seq<string>)
    requires ts != []
    ensures ts + rest == [ts[0]] + (ts[1..] + rest)
  {
  }

  lemma LeafReadBack(e: Ast, rest: seq<string>)
    requires Writable(e) && !e.Or? && !e.And? && !e.Not? && Follows(rest)
    ensures ParsePrimary(LeafTokens(e) + rest) == Parsed(e, rest)
  {
    var ts := LeafTokens(e);
    TestReadBack(e, rest);
    LeafStartsWithWord(e);
    PathReadBack(ts[0], ts[1..] + rest);
    FrontToken(ts, rest);
  }

  /** The order in which the three lemmas below may call each other on the same tree. */
  ghost function Rank(e: Ast, level: nat): nat
    requires level <= 2
  {
    if e.Or? then [0, 2, 1][level] else if e.And? then [1, 0, 2][level] else 2 - level
  }

  lemma GroupReadBack(e: Ast, ts: seq<string>, more: seq<string>)
    requires Peek(ts) == "(" && Peek(more) == ")" && ParseOr(ts[1..]) == OrLoop(e, more)
    ensures ParsePrimary(ts) == Parsed(e, more[1..])
  {
    OrLoopEnds(e, more);
    ClosingExpected(e, more);
    GroupStart(ts);
  }

  lemma GroupStart(ts: seq<string>)
    requires Peek(ts) == "("
    ensures ParsePrimary(ts) == Expect(ParseOr(ts[1..]), ")")
  {
  }

  lemma ClosingExpected(e: Ast, more: seq<string>)
    requires Peek(more) == ")"
    ensures Expect(Parsed(e, more), ")") == Parsed(e, more[1..])
  {
  }

  lemma OrLoopEnds(e: Ast, ts: seq<string>)
    requires Peek(ts) != "||"
    ensures OrLoop(e, ts) == Parsed(e, ts)
  {
  }

  lemma AndOfOne(e: Ast, ts: seq<string>, rest: seq<string>)
    requires ParsePrimary(ts) == Parsed(e, rest)
    ensures ParseAnd(ts) == AndLoop(e, rest)
  {
  }

  lemma OrOfOne(e: Ast, ts: seq<string>, rest: seq<string>)
    requires ParseAnd(ts) == AndLoop(e, rest) && Peek(rest) != "&&"
    ensures ParseOr(ts) == OrLoop(e, rest)
  {
  }

  lemma NotReadBack(e: Ast, ts: seq<string>, rest: seq<string>)
    requires ParsePrimary(ts) == Parsed(e, rest)
    ensures ParsePrimary(["!"] + ts) == Parsed(Not(e), rest)
  {
    assert (["!"] + ts)[1..] == ts;
  }

  lemma AndLoopStep(l: Ast, r: Ast, ts: seq<string>, rest: seq<string>)
    requires ParsePrimary(ts) == Parsed(r, rest)
    ensures AndLoop(l, ["&&"] + ts) == AndLoop(And(l, r), rest)
  {
    assert (["&&"] + ts)[1..] == ts;
  }

  lemma OrLoopStep(l: Ast, r: Ast, ts: seq<string>, rest: seq<string>)
    requires ParseAnd(ts) == AndLoop(r, rest) && Peek(rest) != "&&"
    ensures OrLoop(l, ["||"] + ts) == OrLoop(Or(l, r), rest)
  {
    assert (["||"] + ts)[1..] == ts;
  }

  lemma AndTokens(e: Ast, rest: seq<string>)
    requires e.And?
    ensures TokensAt(e, 1) + rest == TokensAt(e.left, 1) + (["&&"] + (TokensAt(e.right, 2) + rest))
  {
    Text.AssociateFour(TokensAt(e.left, 1), ["&&"], TokensAt(e.right, 2), rest);
  }

  lemma OrTokens(e: Ast, rest: seq<string>)
    requires e.Or?
    ensures TokensAt(e, 0) + rest == TokensAt(e.left, 0) + (["||"] + (TokensAt(e.right, 1) + rest))
  {
    Text.AssociateFour(TokensAt(e.left, 0), ["||"], TokensAt(e.right, 1), rest);
  }

  lemma OperandTokens(e: Ast)
    requires !e.And?
    ensures TokensAt(e, 1) == TokensAt(e, 2)
    ensures !e.Or? ==> TokensAt(e, 0) == TokensAt(e, 1)
  {
  }

  lemma GroupTokens(e: Ast, rest: seq<string>)
    requires e.Or? || e.And?
    ensures Peek(TokensAt(e, 2) + rest) == "(" && (TokensAt(e, 2) + rest)[1..] == TokensAt(e, 0) + ([")"] + rest)
    ensures Peek([")"] + rest) == ")" && ([")"] + rest)[1..] == rest
  {
    Enclosed(TokensAt(e, 0), rest);
  }

  lemma Enclosed(inner: seq<string>, rest: seq<string>)
    ensures Peek(["("] + inner + [")"] + rest) == "(" && (["("] + inner + [")"] + rest)[1..] == inner + ([")"] + rest)
  {
  }

  lemma NotTokens(e: Ast, rest: seq<string>)
    requires e.Not?
    ensures TokensAt(e, 2) + rest == ["!"] + (TokensAt(e.operand, 2) + rest)
  {
  }

  /** One operand. */
  lemma {:induction false} PrimaryReadBack(e: Ast, rest: seq<string>)
    requires Writable(e) && Follows(rest)
    ensures ParsePrimary(TokensAt(e, 2) + rest) == Parsed(e, rest)
    decreases e, Rank(e, 2)
  {
    if e.Or? || e.And? {
      OrReadBack(e, [")"] + rest);
      GroupTokens(e, rest);
      GroupReadBack(e, TokensAt(e, 2) + rest, [")"] + rest);
    } else if e.Not? {
      PrimaryReadBack(e.operand, rest);
      NotReadBack(e.operand, TokensAt(e.operand, 2) + rest, rest);
      NotTokens(e, rest);
    } else {
      LeafReadBack(e, rest);
    }
  }

  /** A chain of `&&`, up to where it goes on. */
  lemma {:induction false} AndReadBack(e: Ast, rest: seq<string>)
    requires Writable(e) && Follows(rest)
    ensures ParseAnd(TokensAt(e, 1) + rest) == AndLoop(e, rest)
    decreases e, Rank(e, 1)
  {
    if e.And? {
      var more := ["&&"] + (TokensAt(e.right, 2) + rest);
      AndReadBack(e.left, more);
      PrimaryReadBack(e.right, rest);
      AndLoopStep(e.left, e.right, TokensAt(e.right, 2) + rest, rest);
      AndTokens(e, rest);
    } else {
      PrimaryReadBack(e, rest);
      OperandTokens(e);
      AndOfOne(e, TokensAt(e, 1) + rest, rest);
    }
  }

  /** A chain of `||`, up to where it goes on. */
  lemma {:induction false} OrReadBack(e: Ast, rest: seq<string>)
    requires Writable(e) && Follows(rest) && Peek(rest) != "&&"
    ensures ParseOr(TokensAt(e, 0) + rest) == OrLoop(e, rest)
    decreases e, Rank(e, 0)
  {
    if e.Or? {
      var more := ["||"] + (TokensAt(e.right, 1) + rest);
      OrReadBack(e.left, more);
      AndReadBack(e.right, rest);
      OrLoopStep(e.left, e.right, TokensAt(e.right, 1) + rest, rest);
      OrTokens(e, rest);
    } else {
      AndReadBack(e, rest);
      if !e.And? {
        OperandTokens(e);
      }
      OrOfOne(e, TokensAt(e, 0) + rest, rest);
    }
  }

  // ---------- every printed token is a token ----------

  lemma LiteralIsToken(v: Literal)
    requires WritableLiteral(v) && (v.ListLit? ==> WritableItems(v.items))
    ensures IsToken(WriteLiteral(v))
  {
    match v
    case StringLit(text) => assert IsQuoted(Quote(text));
    case NumberLit(digits) => NumberIsWord(digits);
    case BoolLit(b) => assert IsWord(if b then "true" else "false");
    case NullLit => assert IsWord("null");
    case ListLit(items) => assert IsList(QuoteList(items));
  }

  lemma LeafTokensAreTokens(e: Ast)
    requires Writable(e) && !e.Or? && !e.And? && !e.Not?
    ensures AllTokens(LeafTokens(e))
  {
    LeafStartsWithWord(e);
    match e
    case Has(path, prop) => assert IsWord("has");
    case In(path, values) => assert IsWord("in") && IsList(QuoteList(values));
    case Like(path, pattern) => assert IsWord("like") && IsQuoted(Quote(pattern));
    case Contains(path, substring) => assert IsQuoted(Quote(substring));
    case Equals(path, value) => LiteralIsToken(value);
    case Compare(op, path, number) => NumberIsWord(number);
    case Attribute(path) =>
  }

  lemma {:induction false} PrintedTokens(e: Ast, level: nat)
    requires Writable(e)
    ensures AllTokens(TokensAt(e, level))
    decreases e
  {
    match e
    case Or(l, r) => PrintedTokens(l, 0); PrintedTokens(r, 1);
    case And(l, r) => PrintedTokens(l, 1); PrintedTokens(r, 2);
    case Not(x) => PrintedTokens(x, 2);
    case _ => LeafTokensAreTokens(e);
  }

  // ---------- main results ----------

  /** Lexing and parsing a condition; nothing comes of one that is over the length limit. */
  function ReadCondition(text: string): Option<Ast> {
    match Tokenized(text)
    case Tokens(ts) => ParseExpression(ts)
    case _ => None
  }

  /** Any legal layout within the limit is scanned into the token list. */
  lemma ScanRender(ts: seq<string>, gaps: seq<string>)
    requires AllTokens(ts) && LegalGaps(ts, gaps)
    ensures Tokenized(Render(ts, gaps)) == if |Render(ts, gaps)| <= MAX_EXPR_LEN then Tokens(ts) else TooLong
  {
    LexRender(ts, gaps);
  }

  lemma ParsesBack(e: Ast)
    requires Writable(e)
    ensures ParseExpression(TokensAt(e, 0)) == Some(e)
  {
    OrReadBack(e, []);
    assert TokensAt(e, 0) + [] == TokensAt(e, 0);
  }

  /**
   Printing with minimal parentheses, in any layout, then lexing and parsing, gives the tree back exactly when the
   text is within the length limit; over it the lexer refuses the text.
   */
  lemma RoundTrip(e: Ast, gaps: seq<string>)
    requires Writable(e) && LegalGaps(TokensAt(e, 0), gaps)
    ensures ReadCondition(Render(TokensAt(e, 0), gaps)) == Some(e) <==> |Render(TokensAt(e, 0), gaps)| <= MAX_EXPR_LEN
    ensures |Render(TokensAt(e, 0), gaps)| > MAX_EXPR_LEN ==> Tokenized(Render(TokensAt(e, 0), gaps)) == TooLong
  {
    PrintedTokens(e, 0);
    ScanRender(TokensAt(e, 0), gaps);
    ParsesBack(e);
  }

  /** Two conditions printed alike, in whatever layouts, are the same condition. */
  lemma PrintingIsInjective(e: Ast, gaps: seq<string>, f: Ast, gaps': seq<string>)
    requires Writable(e) && LegalGaps(TokensAt(e, 0), gaps)
    requires Writable(f) && LegalGaps(TokensAt(f, 0), gaps')
    requires Render(TokensAt(e, 0), gaps) == Render(TokensAt(f, 0), gaps')
    ensures e == f
  {
    PrintedTokens(e, 0);
    PrintedTokens(f, 0);
    LexRender(TokensAt(e, 0), gaps);
    LexRender(TokensAt(f, 0), gaps');
    ParsesBack(e);
    ParsesBack(f);
  }

  /** The type name before an entity id. */
  predicate IsTypeName(name: string) {
    name != "" && !IsDigit(name[0]) && forall i | 0 <= i < |name| :: IsWordChar(name[i])
  }

  function EntityTokens(path: string, name: string, id: string): seq<string> {
    [path, "==", name + "::", Quote(id)]
  }

  lemma EntityTypeWord(name: string)
    requires IsTypeName(name)
    ensures IsEntityType(name + "::") && IsWord(name + "::")
  {
    var t := name + "::";
    assert t[|t| - 2..] == "::";
    forall i | 0 <= i < |t| ensures !IsStop(t[i]) {
      assert i < |name| ==> t[i] == name[i] && IsWordChar(name[i]);
    }
  }

  lemma EntityReadBack(path: string, name: string, id: string)
    requires IsWord(path) && IsTypeName(name) && Printable(id)
    ensures ParsePrimary(EntityTokens(path, name, id)) == Parsed(Equals(path, StringLit(id)), [])
  {
    var ts := ["==", name + "::", Quote(id)];
    EntityTypeWord(name);
    LiteralReadBack(StringLit(id));
    assert ts[1..] == [name + "::", Quote(id)] && ts[1..][1..] == [Quote(id)] && ts[1..][2..] == [];
    assert EqualsOperand(ts[1..]) == Parsed(StringLit(id), []);
    PathReadBack(path, ts);
    assert EntityTokens(path, name, id) == [path] + ts;
  }

  lemma EntityParses(path: string, name: string, id: string)
    requires IsWord(path) && IsTypeName(name) && Printable(id)
    ensures ParseExpression(EntityTokens(path, name, id)) == Some(Equals(path, StringLit(id)))
  {
    var ts, e := EntityTokens(path, name, id), Equals(path, StringLit(id));
    EntityReadBack(path, name, id);
    AndOfOne(e, ts, []);
    assert AndLoop(e, []) == Parsed(e, []) && OrLoop(e, []) == Parsed(e, []);
    assert ParseOr(ts) == Parsed(e, []);
  }

  /**
   An entity such as `User::"alice"`, in any layout within the
   limit, is compared by its id alone: the type name is dropped.
   */
  lemma EntityTypeIsDropped(path: string, name: string, id: string, gaps: seq<string>)
    requires IsWord(path) && IsTypeName(name) && Printable(id) && LegalGaps(EntityTokens(path, name, id), gaps)
    ensures ReadCondition(Render(EntityTokens(path, name, id), gaps)) == Some(Equals(path, StringLit(id))) <==>
            |Render(EntityTokens(path, name, id), gaps)| <= MAX_EXPR_LEN
  {
    EntityTypeWord(name);
    assert IsOperator("==") && IsQuoted(Quote(id));
    assert AllTokens(EntityTokens(path, name, id));
    ScanRender(EntityTokens(path, name, id), gaps);
    EntityParses(path, name, id);
  }

  /** Once a condition is complete, a closing parenthesis and everything after it are ignored. */
  lemma TrailingTokensIgnored(e: Ast, extra: seq<string>)
    requires Writable(e) && Peek(extra) == ")"
    ensures ParseExpression(TokensAt(e, 0) + extra) == Some(e)
  {
    OrReadBack(e, extra);
  }
}
