/**
 The lexer of policy conditions.

 `Lex` says what the tokens of a condition are; `Tokenize` is the scanning loop.
 On a lone `&`, `|` or `]` the loop of the original makes no progress; the model
 stops there and answers `Stuck`.
 */
module CedarLexer {
  import opened Wrappers

  datatype LexResult = Tokens(tokens: seq<string>) | TooLong | Stuck

  const MAX_EXPR_LEN := 32 * 1024

  predicate IsSpace(c: char) {
    c == ' ' || c == '\t' || c == '\n' || c == '\r'
  }

  /** The characters that end a word. */
  predicate IsStop(c: char) {
    || IsSpace(c) || IsOneCharOperator(c)
    || c == '&' || c == '|' || c == '[' || c == ']' || c == '\"'
  }

  predicate IsOneCharOperator(c: char) {
    c == '=' || c == '>' || c == '<' || c == '!' || c == '(' || c == ')'
  }

  // ---------- lengths of the tokens at the front of a text ----------

  function WordLen(s: string): (n: nat)
    ensures n <= |s|
  {
    if s == "" || IsStop(s[0]) then 0 else 1 + WordLen(s[1..])
  }

  /** Characters up to and including the closing quote; a backslash skips the next character. */
  function StringLen(s: string): (n: nat)
    ensures n <= |s|
  {
    if s == "" then 0
    else if s[0] == '\"' then 1
    else if s[0] == '\\' then (if |s| == 1 then 1 else 2 + StringLen(s[2..]))
    else 1 + StringLen(s[1..])
  }

  /** Characters up to and including the bracket that closes `depth` open ones; quotes do not matter. */
  function BracketLen(s: string, depth: nat): (n: nat)
    ensures n <= |s|
  {
    if s == "" || depth == 0 then 0
    else 1 + BracketLen(s[1..], if s[0] == '[' then depth + 1 else if s[0] == ']' then depth - 1 else depth)
  }

  predicate TwoCharOperator(s: string) {
    && |s| >= 2
    && (((s[0] == '&' || s[0] == '|') && s[1] == s[0]) || ((s[0] == '=' || s[0] == '>' || s[0] == '<') && s[1] == '='))
  }

  /** The length of the token at the front; 0 where the scan makes no progress. */
  function TokenLen(s: string): (n: nat)
    requires s != "" && !IsSpace(s[0])
    ensures n <= |s|
  {
    if TwoCharOperator(s) then 2
    else if IsOneCharOperator(s[0]) then 1
    else if s[0] == '[' then 1 + BracketLen(s[1..], 1)
    else if s[0] == '\"' then 1 + StringLen(s[1..])
    else WordLen(s)
  }

  /** The tokens of a text; None when the scan gets stuck. */
  function Lex(s: string): Option<seq<string>>
    decreases |s|
  {
    if s == "" then Some([])
    else if IsSpace(s[0]) then Lex(s[1..])
    else
      var n := TokenLen(s);
      if n == 0 then None
      else
        Onto([s[..n]], Lex(s[n..]))
  }

  /** Tokens found so far, followed by those of the rest. */
  function Onto(ts: seq<string>, rest: Option<seq<string>>): Option<seq<string>> {
    match rest
    case None => None
    case Some(us) => Some(ts + us)
  }

  lemma OntoOnto(ts: seq<string>, t: string, rest: Option<seq<string>>)
    ensures Onto(ts, Onto([t], rest)) == Onto(ts + [t], rest)
  {
    if rest.Some? {
      assert ts + ([t] + rest.value) == (ts + [t]) + rest.value;
    }
  }

  lemma OntoNothing(rest: Option<seq<string>>)
    ensures Onto([], rest) == rest
  {
    if rest.Some? {
      assert [] + rest.value == rest.value;
    }
  }

  // ---------- the scanning loop ----------

  /** What comes of tokenizing: nothing over the length limit, and nothing where the scan gets stuck. */
  function Tokenized(expr: string): LexResult {
    if |expr| > MAX_EXPR_LEN then TooLong
    else
      match Lex(expr)
      case None => Stuck
      case Some(ts) => Tokens(ts)
  }

  method Tokenize(expr: string) returns (r: LexResult)
    ensures r == Tokenized(expr)
  {
    if |expr| > MAX_EXPR_LEN {
      return TooLong;
    }
    var tokens: seq<string> := [];
    var i := 0;
    assert expr[0..] == expr;
    OntoNothing(Lex(expr));
    while i < |expr|
      invariant i <= |expr|
      invariant Lex(expr) == Onto(tokens, Lex(expr[i..]))
    {
      var c := expr[i];
      var rest := expr[i..];
      if IsSpace(c) {
        assert rest[1..] == expr[i + 1..];
        i := i + 1;
        continue;
      }
      var start := i;
      if TwoCharOperator(rest) {
        i := i + 2;
      } else if IsOneCharOperator(c) {
        i := i + 1;
      } else if c == '[' {
        i := ScanBrackets(expr, i + 1);
      } else if c == '\"' {
        i := ScanString(expr, i + 1);
      } else {
        i := ScanWord(expr, i);
        if i == start {
          return Stuck;
        }
      }
      assert i == start + TokenLen(rest) && rest[TokenLen(rest)..] == expr[i..];
      var token := expr[start..i];
      assert token == rest[..TokenLen(rest)];
      OntoOnto(tokens, token, Lex(expr[i..]));
      tokens := tokens + [token];
    }
    assert expr[i..] == "" && tokens + [] == tokens;
    r := Tokens(tokens);
  }

  method ScanBrackets(expr: string, start: nat) returns (i: nat)
    requires start <= |expr|
    ensures i == start + BracketLen(expr[start..], 1)
  {
    var depth := 1;
    i := start;
    while i < |expr| && depth > 0
      invariant start <= i <= |expr| && depth >= 0
      invariant start + BracketLen(expr[start..], 1) == i + BracketLen(expr[i..], depth)
    {
      assert expr[i..][1..] == expr[i + 1..];
      if expr[i] == '[' {
        depth := depth + 1;
      }
      if expr[i] == ']' {
        depth := depth - 1;
      }
      i := i + 1;
    }
  }

  method ScanString(expr: string, start: nat) returns (i: nat)
    requires start <= |expr|
    ensures i == start + StringLen(expr[start..])
  {
    i := start;
    while i < |expr| && expr[i] != '\"'
      invariant start <= i
      invariant start + StringLen(expr[start..]) == if i <= |expr| then i + StringLen(expr[i..]) else |expr|
    {
      assert expr[i..][1..] == expr[i + 1..];
      if expr[i] == '\\' {
        assert i + 1 < |expr| ==> expr[i..][2..] == expr[i + 2..];
        i := i + 1;
      }
      i := i + 1;
    }
    i := if i + 1 <= |expr| then i + 1 else |expr|;
  }

  method ScanWord(expr: string, start: nat) returns (i: nat)
    requires start <= |expr|
    ensures i == start + WordLen(expr[start..])
  {
    i := start;
    while i < |expr| && !IsStop(expr[i])
      invariant start <= i <= |expr|
      invariant start + WordLen(expr[start..]) == i + WordLen(expr[i..])
    {
      assert expr[i..][1..] == expr[i + 1..];
      i := i + 1;
    }
  }

  // ---------- an independent reading, one character at a time ----------

  datatype Mode = Outside | InString | Escaped | InBracket(depth: nat)

  function Next(mode: Mode, c: char): Mode {
    match mode
    case Outside => if c == '\"' then InString else if c == '[' then InBracket(1) else Outside
    case InString => if c == '\"' then Outside else if c == '\\' then Escaped else InString
    case Escaped => InString
    case InBracket(d) =>
      if c == '[' then InBracket(d + 1)
      else if c == ']' then (if d <= 1 then Outside else InBracket(d - 1))
      else mode
  }

  /** The text without the whitespace that stands outside literals and brackets. */
  function Visible(s: string, mode: Mode): string {
    if s == "" then ""
    else (if mode == Outside && IsSpace(s[0]) then "" else [s[0]]) + Visible(s[1..], Next(mode, s[0]))
  }

  /** Outside literals and brackets there is a `]`, or an `&` or `|` that has no twin. */
  predicate HasLone(s: string, mode: Mode) {
    if s == "" then false
    else if mode == Outside && s[0] == ']' then true
    else if mode == Outside && (s[0] == '&' || s[0] == '|') then
      if |s| >= 2 && s[1] == s[0] then HasLone(s[2..], Outside) else true
    else HasLone(s[1..], Next(mode, s[0]))
  }

  function Concat(ts: seq<string>): string {
    if ts == [] then "" else ts[0] + Concat(ts[1..])
  }

  /** A prefix and its remainder, with the first character taken apart. */
  lemma Split(s: string, n: nat)
    requires 0 < n <= |s|
    ensures s[..n] == [s[0]] + s[1..][..n - 1] && s[n..] == s[1..][n - 1..]
  {
  }

  lemma {:induction false} WordRead(s: string)
    ensures var n := WordLen(s);
            Visible(s, Outside) == s[..n] + Visible(s[n..], Outside) && HasLone(s, Outside) == HasLone(s[n..], Outside)
    decreases |s|
  {
    var n := WordLen(s);
    if n > 0 {
      WordRead(s[1..]);
      assert s[1..][n - 1..] == s[n..] && s[..n] == [s[0]] + s[1..][..n - 1];
    }
  }

  /** Two prefixes read one after the other. */
  lemma Onward(s: string, k: nat, n: nat, visible: string)
    requires k <= n <= |s|
    ensures s[k..][n - k..] == s[n..]
    ensures s[..k] + (s[k..][..n - k] + visible) == s[..n] + visible
  {
    assert s[..k] + s[k..][..n - k] == s[..n];
  }

  lemma TwoFront(s: string, visible: string)
    requires |s| >= 2
    ensures s[1..][1..] == s[2..] && s[1..][0] == s[1]
    ensures [s[0]] + ([s[1]] + visible) == s[..2] + visible
  {
    assert s[..2] == [s[0], s[1]];
  }

  lemma EscapeVisible(s: string)
    requires |s| > 1 && s[0] == '\\'
    ensures Visible(s, InString) == s[..2] + Visible(s[2..], InString)
  {
    TwoFront(s, Visible(s[2..], InString));
    assert Visible(s, InString) == [s[0]] + Visible(s[1..], Escaped);
    assert Visible(s[1..], Escaped) == [s[1]] + Visible(s[2..], InString);
  }

  lemma EscapeLone(s: string)
    requires |s| > 1 && s[0] == '\\'
    ensures HasLone(s, InString) == HasLone(s[2..], InString)
  {
    TwoFront(s, "");
    assert HasLone(s, InString) == HasLone(s[1..], Escaped);
    assert HasLone(s[1..], Escaped) == HasLone(s[2..], InString);
  }

  lemma {:induction false} StringVisible(s: string, n: nat)
    requires n == StringLen(s)
    ensures Visible(s, InString) == s[..n] + Visible(s[n..], Outside)
    decreases |s|
  {
    if s == "" {
    } else if s[0] == '\"' {
      assert s[..n] == [s[0]];
    } else if s[0] == '\\' && |s| > 1 {
      StringVisible(s[2..], n - 2);
      EscapeVisible(s);
      Onward(s, 2, n, Visible(s[n..], Outside));
    } else if s[0] == '\\' {
      assert s == [s[0]];
    } else {
      StringVisible(s[1..], n - 1);
      Onward(s, 1, n, Visible(s[n..], Outside));
      assert s[..1] == [s[0]];
    }
  }

  lemma {:induction false} StringLone(s: string, n: nat)
    requires n == StringLen(s)
    ensures HasLone(s, InString) == HasLone(s[n..], Outside)
    decreases |s|
  {
    if s == "" || s[0] == '\"' {
    } else if s[0] == '\\' && |s| > 1 {
      StringLone(s[2..], n - 2);
      EscapeLone(s);
      Onward(s, 2, n, "");
    } else if s[0] == '\\' {
      assert s == [s[0]];
    } else {
      StringLone(s[1..], n - 1);
      Onward(s, 1, n, "");
    }
  }

  lemma {:induction false} BracketVisible(s: string, depth: nat)
    requires depth > 0
    ensures Visible(s, InBracket(depth)) == s[..BracketLen(s, depth)] + Visible(s[BracketLen(s, depth)..], Outside)
    decreases |s|
  {
    if s != "" {
      var n := BracketLen(s, depth);
      var next := Next(InBracket(depth), s[0]);
      assert s[..1] == [s[0]];
      Onward(s, 1, n, Visible(s[n..], Outside));
      if next.InBracket? {
        BracketVisible(s[1..], next.depth);
      }
    }
  }

  lemma {:induction false} BracketLone(s: string, depth: nat)
    requires depth > 0
    ensures HasLone(s, InBracket(depth)) == HasLone(s[BracketLen(s, depth)..], Outside)
    decreases |s|
  {
    if s != "" {
      var n := BracketLen(s, depth);
      Split(s, n);
      var next := Next(InBracket(depth), s[0]);
      if next.InBracket? {
        BracketLone(s[1..], next.depth);
      }
    }
  }

  /** Reading the first `n` characters outside literals leaves the reader outside again. */
  ghost predicate ReadBy(s: string, n: nat)
    requires n <= |s|
  {
    && Visible(s, Outside) == s[..n] + Visible(s[n..], Outside)
    && HasLone(s, Outside) == HasLone(s[n..], Outside)
  }

  lemma QuotedRead(s: string)
    requires s != "" && s[0] == '\"'
    ensures ReadBy(s, 1 + StringLen(s[1..]))
  {
    var n := 1 + StringLen(s[1..]);
    StringVisible(s[1..], n - 1);
    StringLone(s[1..], n - 1);
    Onward(s, 1, n, Visible(s[n..], Outside));
    assert s[..1] == [s[0]];
  }

  lemma BracketedRead(s: string)
    requires s != "" && s[0] == '['
    ensures ReadBy(s, 1 + BracketLen(s[1..], 1))
  {
    var n := 1 + BracketLen(s[1..], 1);
    BracketVisible(s[1..], 1);
    BracketLone(s[1..], 1);
    Onward(s, 1, n, Visible(s[n..], Outside));
    assert s[..1] == [s[0]];
  }

  /** The token at the front, read one character at a time; where there is none, a lone character stands. */
  lemma TokenRead(s: string)
    requires s != "" && !IsSpace(s[0])
    ensures if TokenLen(s) == 0 then HasLone(s, Outside) else ReadBy(s, TokenLen(s))
  {
    if TwoCharOperator(s) {
      TwoCharRead(s);
    } else if IsOneCharOperator(s[0]) {
      Split(s, 1);
    } else if s[0] == '[' {
      BracketedRead(s);
    } else if s[0] == '\"' {
      QuotedRead(s);
    } else {
      WordRead(s);
      if WordLen(s) == 0 {
        LoneAtFront(s);
      }
    }
  }

  lemma TwoCharRead(s: string)
    requires TwoCharOperator(s)
    ensures Visible(s, Outside) == s[..2] + Visible(s[2..], Outside) && HasLone(s, Outside) == HasLone(s[2..], Outside)
  {
    TwoFront(s, Visible(s[2..], Outside));
    assert Visible(s, Outside) == [s[0]] + Visible(s[1..], Outside);
    assert Visible(s[1..], Outside) == [s[1]] + Visible(s[2..], Outside);
    TwoCharLone(s);
  }

  lemma TwoCharLone(s: string)
    requires TwoCharOperator(s)
    ensures HasLone(s, Outside) == HasLone(s[2..], Outside)
  {
    TwoFront(s, "");
    if s[0] != '&' && s[0] != '|' {
      assert HasLone(s, Outside) == HasLone(s[1..], Outside);
      assert HasLone(s[1..], Outside) == HasLone(s[2..], Outside);
    }
  }

  lemma LoneAtFront(s: string)
    requires s != "" && (s[0] == '&' || s[0] == '|' || s[0] == ']') && !TwoCharOperator(s)
    ensures HasLone(s, Outside)
  {
  }

  // ---------- main results ----------

  /** The scan ends exactly on the conditions without a lone `&`, `|` or `]`. */
  lemma {:induction false} LexEndsIffNoLone(s: string)
    ensures Lex(s).Some? <==> !HasLone(s, Outside)
    decreases |s|
  {
    if s != "" {
      if IsSpace(s[0]) {
        LexEndsIffNoLone(s[1..]);
      } else {
        TokenRead(s);
        if TokenLen(s) > 0 {
          LexEndsIffNoLone(s[TokenLen(s)..]);
        }
      }
    }
  }

  /** The loop runs on for ever exactly on the conditions within the limit that have a lone `&`, `|` or `]`. */
  lemma ScanEndsIff(s: string)
    ensures Tokenized(s).TooLong? <==> |s| > MAX_EXPR_LEN
    ensures Tokenized(s).Stuck? <==> |s| <= MAX_EXPR_LEN && HasLone(s, Outside)
  {
    LexEndsIffNoLone(s);
  }

  /** The tokens put together are the condition without its whitespace outside literals and brackets. */
  lemma {:induction false} TokensKeepText(s: string)
    requires Lex(s).Some?
    ensures Concat(Lex(s).value) == Visible(s, Outside)
    ensures "" !in Lex(s).value
    decreases |s|
  {
    if s != "" {
      if IsSpace(s[0]) {
        TokensKeepText(s[1..]);
      } else {
        var n := TokenLen(s);
        TokenRead(s);
        TokensKeepText(s[n..]);
        var ts := Lex(s[n..]).value;
        assert ([s[..n]] + ts)[1..] == ts;
      }
    }
  }
}
