/**
 Glob patterns compiled to regular expressions.

 `RegexText` is the text that `like` builds from a pattern; `ReadRegex` and
 `Test` give that text its meaning, for the part of section 22.2 of ECMA-262 it
 uses: anchors, identity escapes, `.`, pattern characters and a greedy `*`.
 */
module CedarGlob {
  import opened Wrappers
  import Text

  // ---------- building the text ----------

  predicate IsEscaped(c: char) {
    || c == '-' || c == '[' || c == ']' || c == '{' || c == '}' || c == '(' || c == ')' || c == '+' || c == '?'
    || c == '.' || c == ',' || c == '\\' || c == '^' || c == '$' || c == '|' || c == '#' || Text.IsWhiteSpace(c)
  }

  function EscapeSyntax(pattern: string): string {
    if pattern == "" then ""
    else (if IsEscaped(pattern[0]) then ['\\', pattern[0]] else [pattern[0]]) + EscapeSyntax(pattern[1..])
  }

  function WidenStars(s: string): string {
    if s == "" then "" else (if s[0] == '*' then ".*" else [s[0]]) + WidenStars(s[1..])
  }

  function RegexText(pattern: string): string {
    "^" + WidenStars(EscapeSyntax(pattern)) + "$"
  }

  // ---------- what a regular expression means ----------

  datatype Atom = Literal(c: char) | AnyChar

  datatype Term = Start | End | One(atom: Atom) | Repeat(atom: Atom)

  predicate IsLineTerminator(c: char) {
    var n := c as int;
    n == 10 || n == 13 || n == 0x2028 || n == 0x2029
  }

  predicate IsSyntaxCharacter(c: char) {
    || c == '^' || c == '$' || c == '\\' || c == '.' || c == '*' || c == '+' || c == '?' || c == '('
    || c == ')' || c == '[' || c == ']' || c == '{' || c == '}' || c == '|'
  }

  /** Letters and digits after a backslash are classes, back references and controls, not identity escapes. */
  predicate IsIdentityEscape(c: char) {
    !('a' <= c <= 'z' || 'A' <= c <= 'Z' || '0' <= c <= '9' || c == '_')
  }

  /** An atom followed by the rest of the text, with the `*` that may quantify it. */
  function Quantified(a: Atom, rest: string): Option<seq<Term>>
    decreases |rest|, 1
  {
    if rest != "" && rest[0] == '*' then Front(Repeat(a), ReadRegex(rest[1..]))
    else Front(One(a), ReadRegex(rest))
  }

  function Front(t: Term, rest: Option<seq<Term>>): Option<seq<Term>> {
    match rest
    case None => None
    case Some(ts) => Some([t] + ts)
  }

  /** The terms of a regular expression; None outside the part modelled here. */
  function ReadRegex(s: string): Option<seq<Term>>
    decreases |s|, 0
  {
    if s == "" then Some([])
    else if s[0] == '^' then Front(Start, ReadRegex(s[1..]))
    else if s[0] == '$' then Front(End, ReadRegex(s[1..]))
    else if s[0] == '.' then Quantified(AnyChar, s[1..])
    else if s[0] == '\\' then
      if |s| >= 2 && IsIdentityEscape(s[1]) then Quantified(Literal(s[1]), s[2..]) else None
    else if IsSyntaxCharacter(s[0]) then None
    else Quantified(Literal(s[0]), s[1..])
  }

  predicate Accepts(a: Atom, c: char) {
    match a
    case Literal(d) => c == d
    case AnyChar => !IsLineTerminator(c)
  }

  /** The terms match `s` from position `i` on, to wherever they end. */
  predicate MatchesAt(ts: seq<Term>, s: string, i: nat)
    requires i <= |s|
    decreases |ts|
  {
    ts == [] ||
    match ts[0]
    case Start => i == 0 && MatchesAt(ts[1..], s, i)
    case End => i == |s| && MatchesAt(ts[1..], s, i)
    case One(a) => i < |s| && Accepts(a, s[i]) && MatchesAt(ts[1..], s, i + 1)
    case Repeat(a) => exists j | i <= j <= |s| :: Run(a, s, i, j) && MatchesAt(ts[1..], s, j)
  }

  predicate Run(a: Atom, s: string, i: nat, j: nat)
    requires i <= j <= |s|
  {
    forall k | i <= k < j :: Accepts(a, s[k])
  }

  /** `regex.test(s)`: a match may start anywhere. */
  predicate Test(ts: seq<Term>, s: string) {
    exists i | 0 <= i <= |s| :: MatchesAt(ts, s, i)
  }

  // ---------- what a glob pattern means ----------

  predicate NoLineTerminators(s: string) {
    forall k | 0 <= k < |s| :: !IsLineTerminator(s[k])
  }

  /** Each `*` stands for a run without line terminators, every other character for itself. */
  predicate GlobMatches(pattern: string, s: string)
    decreases |pattern|
  {
    if pattern == "" then s == ""
    else if pattern[0] == '*'
    then exists k | 0 <= k <= |s| :: NoLineTerminators(s[..k]) && GlobMatches(pattern[1..], s[k..])
    else s != "" && s[0] == pattern[0] && GlobMatches(pattern[1..], s[1..])
  }

  // ---------- the built text reads as the expected terms ----------

  function TermsOf(pattern: string): seq<Term> {
    if pattern == "" then [End]
    else [if pattern[0] == '*' then Repeat(AnyChar) else One(Literal(pattern[0]))] + TermsOf(pattern[1..])
  }

  function Body(pattern: string): string {
    WidenStars(EscapeSyntax(pattern)) + "$"
  }

  lemma {:induction false} WidenAppend(a: string, b: string)
    ensures WidenStars(a + b) == WidenStars(a) + WidenStars(b)
    decreases |a|
  {
    if a == "" {
      assert a + b == b;
    } else {
      WidenAppend(a[1..], b);
      assert (a + b)[1..] == a[1..] + b && (a + b)[0] == a[0];
      Text.Associate(if a[0] == '*' then ".*" else [a[0]], WidenStars(a[1..]), WidenStars(b));
    }
  }

  function Piece(c: char): string {
    if c == '*' then ".*" else if IsEscaped(c) then ['\\', c] else [c]
  }

  lemma BodyFront(pattern: string)
    requires pattern != ""
    ensures Body(pattern) == Piece(pattern[0]) + Body(pattern[1..])
  {
    var c := pattern[0];
    var p := if IsEscaped(c) then ['\\', c] else [c];
    WidenAppend(p, EscapeSyntax(pattern[1..]));
    assert WidenStars(p) == Piece(c) by {
      if IsEscaped(c) {
        assert p[1..] == [c];
        assert WidenStars([c]) == [c] + WidenStars([c][1..]);
      } else {
        assert p[1..] == "";
      }
    }
  }

  /** A text built from a pattern never starts with a star, so it never quantifies what stands before it. */
  lemma BodyStart(pattern: string)
    ensures Body(pattern) != "" && Body(pattern)[0] != '*'
  {
    if pattern != "" {
      BodyFront(pattern);
    }
  }

  lemma PieceReads(c: char, rest: string)
    requires rest != "" && rest[0] != '*'
    ensures ReadRegex(Piece(c) + rest) == Front(if c == '*' then Repeat(AnyChar) else One(Literal(c)), ReadRegex(rest))
  {
    var s := Piece(c) + rest;
    if c == '*' {
      assert s[1..] == "*" + rest && s[1..][1..] == rest;
    } else if IsEscaped(c) {
      assert s[2..] == rest;
    } else {
      assert s[1..] == rest;
    }
  }

  lemma {:induction false} BodyReads(pattern: string)
    ensures ReadRegex(Body(pattern)) == Some(TermsOf(pattern))
    decreases |pattern|
  {
    if pattern == "" {
      assert Body(pattern) == "$" && "$"[1..] == "" && [End] + [] == [End];
    } else {
      BodyFront(pattern);
      BodyStart(pattern[1..]);
      BodyReads(pattern[1..]);
      PieceReads(pattern[0], Body(pattern[1..]));
    }
  }

  lemma RegexReads(pattern: string)
    ensures ReadRegex(RegexText(pattern)) == Some([Start] + TermsOf(pattern))
  {
    BodyReads(pattern);
    assert RegexText(pattern) == "^" + Body(pattern) && ("^" + Body(pattern))[1..] == Body(pattern);
  }

  // ---------- the terms denote the glob language ----------

  lemma {:induction false} TermsDenote(pattern: string, s: string, i: nat)
    requires i <= |s|
    ensures MatchesAt(TermsOf(pattern), s, i) <==> GlobMatches(pattern, s[i..])
    decreases |pattern|
  {
    var ts := TermsOf(pattern);
    if pattern == "" {
      assert MatchesAt(ts[1..], s, i);
    } else if pattern[0] == '*' {
      assert ts[1..] == TermsOf(pattern[1..]);
      if MatchesAt(ts, s, i) {
        var j :| i <= j <= |s| && Run(AnyChar, s, i, j) && MatchesAt(ts[1..], s, j);
        TermsDenote(pattern[1..], s, j);
        StarToGlob(pattern, s, i, j);
      }
      if GlobMatches(pattern, s[i..]) {
        var j := GlobToStar(pattern, s, i);
        TermsDenote(pattern[1..], s, j);
        MatchRepeat(ts, s, i, j);
      }
    } else {
      assert ts[1..] == TermsOf(pattern[1..]);
      if i < |s| {
        TermsDenote(pattern[1..], s, i + 1);
        assert s[i..][1..] == s[i + 1..];
      }
    }
  }

  lemma StarToGlob(pattern: string, s: string, i: nat, j: nat)
    requires i <= j <= |s| && pattern != "" && pattern[0] == '*'
    requires Run(AnyChar, s, i, j) && GlobMatches(pattern[1..], s[j..])
    ensures GlobMatches(pattern, s[i..])
  {
    RunIsPrefix(s, i, j);
    GlobStar(pattern, s[i..], j - i);
  }

  lemma GlobToStar(pattern: string, s: string, i: nat) returns (j: nat)
    requires i <= |s| && pattern != "" && pattern[0] == '*' && GlobMatches(pattern, s[i..])
    ensures i <= j <= |s| && Run(AnyChar, s, i, j) && GlobMatches(pattern[1..], s[j..])
  {
    var k := GlobStarInv(pattern, s[i..]);
    RunIsPrefix(s, i, i + k);
    j := i + k;
  }

  lemma RunIsPrefix(s: string, i: nat, j: nat)
    requires i <= j <= |s|
    ensures Run(AnyChar, s, i, j) <==> NoLineTerminators(s[i..][..j - i])
    ensures s[i..][j - i..] == s[j..]
  {
    var run := s[i..][..j - i];
    assert forall m | i <= m < j :: run[m - i] == s[m];
    assert forall k | 0 <= k < |run| :: run[k] == s[i + k];
  }

  lemma GlobStar(pattern: string, s: string, k: nat)
    requires pattern != "" && pattern[0] == '*' && k <= |s|
    requires NoLineTerminators(s[..k]) && GlobMatches(pattern[1..], s[k..])
    ensures GlobMatches(pattern, s)
  {
  }

  lemma GlobStarInv(pattern: string, s: string) returns (k: nat)
    requires pattern != "" && pattern[0] == '*' && GlobMatches(pattern, s)
    ensures k <= |s| && NoLineTerminators(s[..k]) && GlobMatches(pattern[1..], s[k..])
  {
    k :| 0 <= k <= |s| && NoLineTerminators(s[..k]) && GlobMatches(pattern[1..], s[k..]);
  }

  lemma MatchRepeat(ts: seq<Term>, s: string, i: nat, j: nat)
    requires ts != [] && ts[0] == Repeat(AnyChar) && i <= j <= |s| && Run(AnyChar, s, i, j) && MatchesAt(ts[1..], s, j)
    ensures MatchesAt(ts, s, i)
  {
  }

  // ---------- main result ----------

  /** `like` accepts exactly the glob language of its pattern. */
  lemma GlobCompilesCorrectly(pattern: string, s: string)
    ensures ReadRegex(RegexText(pattern)).Some?
    ensures Test(ReadRegex(RegexText(pattern)).value, s) <==> GlobMatches(pattern, s)
  {
    RegexReads(pattern);
    var ts := [Start] + TermsOf(pattern);
    assert ts[1..] == TermsOf(pattern);
    TermsDenote(pattern, s, 0);
    assert s[0..] == s;
    if GlobMatches(pattern, s) {
      assert MatchesAt(ts, s, 0);
    }
  }

  // ---------- prefixes and substrings as patterns ----------

  lemma StarAlone(s: string)
    ensures GlobMatches("*", s) <==> NoLineTerminators(s)
  {
    assert "*"[1..] == "" && s[..|s|] == s && s[|s|..] == "";
    if NoLineTerminators(s) {
      GlobStar("*", s, |s|);
    }
    if GlobMatches("*", s) {
      var k := GlobStarInv("*", s);
      assert k == |s|;
    }
  }

  lemma {:induction false} PrefixPattern(t: string, s: string)
    requires '*' !in t
    ensures GlobMatches(t + "*", s) <==> t <= s && NoLineTerminators(s[|t|..])
    decreases |t|
  {
    if t == "" {
      assert t + "*" == "*" && s[0..] == s;
      StarAlone(s);
    } else {
      assert (t + "*")[1..] == t[1..] + "*" && (t + "*")[0] == t[0];
      if s != "" {
        PrefixPattern(t[1..], s[1..]);
        assert t <= s <==> t[0] == s[0] && t[1..] <= s[1..];
        assert t[1..] <= s[1..] ==> s[1..][|t[1..]|..] == s[|t|..];
      }
    }
  }

  /** `t` stands at `k`, with no line terminator before or after it. */
  predicate StandsFree(t: string, s: string, k: nat) {
    k <= |s| && NoLineTerminators(s[..k]) && t <= s[k..] && NoLineTerminators(s[k..][|t|..])
  }

  /** `*t*` matches where `t` occurs with no line terminator before or after it. */
  lemma SubstringPattern(t: string, s: string)
    requires '*' !in t
    ensures GlobMatches("*" + t + "*", s) <==> exists k: nat :: StandsFree(t, s, k)
  {
    assert ("*" + t + "*")[1..] == t + "*" && ("*" + t + "*")[0] == '*';
    SubstringMatches("*" + t + "*", t, s);
  }

  lemma SubstringMatches(pattern: string, t: string, s: string)
    requires '*' !in t && pattern != "" && pattern[0] == '*' && pattern[1..] == t + "*"
    ensures GlobMatches(pattern, s) <==> exists k: nat :: StandsFree(t, s, k)
  {
    if GlobMatches(pattern, s) {
      var k := GlobStarInv(pattern, s);
      PrefixPattern(t, s[k..]);
      assert StandsFree(t, s, k);
    }
    if exists k: nat :: StandsFree(t, s, k) {
      var k: nat :| StandsFree(t, s, k);
      PrefixPattern(t, s[k..]);
      GlobStar(pattern, s, k);
    }
  }

  lemma OccursAt(s: string, k: nat, t: string)
    requires k <= |s|
    ensures t <= s[k..] <==> Text.HasAt(s, k, t)
    ensures t <= s[k..] ==> s[k..][|t|..] == s[k + |t|..]
  {
    if k + |t| <= |s| {
      assert s[k..][..|t|] == s[k..k + |t|];
    }
  }

  lemma FreeIsIncluded(t: string, s: string, k: nat)
    requires StandsFree(t, s, k)
    ensures Text.Includes(s, t)
  {
    OccursAt(s, k, t);
  }

  lemma IncludedIsFree(t: string, s: string)
    requires NoLineTerminators(s) && Text.Includes(s, t)
    ensures StandsFree(t, s, Text.IndexOf(s, t).value)
  {
    var k := Text.IndexOf(s, t).value;
    OccursAt(s, k, t);
    assert NoLineTerminators(s[..k]) && NoLineTerminators(s[k + |t|..]);
  }

  lemma SubstringIsIncluded(t: string, s: string)
    requires '*' !in t
    ensures GlobMatches("*" + t + "*", s) ==> Text.Includes(s, t)
    ensures NoLineTerminators(s) && Text.Includes(s, t) ==> GlobMatches("*" + t + "*", s)
  {
    SubstringPattern(t, s);
    if exists k: nat :: StandsFree(t, s, k) {
      var k: nat :| StandsFree(t, s, k);
      FreeIsIncluded(t, s, k);
    }
    if NoLineTerminators(s) && Text.Includes(s, t) {
      IncludedIsFree(t, s);
    }
  }
}
