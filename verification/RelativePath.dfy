/** Canonical relative paths: `.` and empty segments dropped, `..` resolved, never above the root. */
module RelativePath {
  import opened Wrappers
  import Text

  const MAX_PATH := 512

  predicate IsSkipped(part: string) {
    part == "" || part == "."
  }

  predicate IsName(part: string) {
    !IsSkipped(part) && part != ".."
  }

  function Slashes(s: string): (r: string)
    ensures |r| == |s|
    ensures forall i | 0 <= i < |s| :: r[i] == if s[i] == '\\' then '/' else s[i]
  {
    if s == "" then "" else [if s[0] == '\\' then '/' else s[0]] + Slashes(s[1..])
  }

  function Parts(value: string): seq<string> {
    Text.Split(Slashes(value), '/')
  }

  /** The segments left after walking `parts` from `out`; None when a `..` leaves the root. */
  function Walk(out: seq<string>, parts: seq<string>): Option<seq<string>>
    decreases |parts|
  {
    if parts == [] then Some(out)
    else if IsSkipped(parts[0]) then Walk(out, parts[1..])
    else if parts[0] == ".." then (if out == [] then None else Walk(out[..|out| - 1], parts[1..]))
    else Walk(out + [parts[0]], parts[1..])
  }

  predicate Admissible(value: string) {
    0 < |value| <= MAX_PATH && (0 as char) !in value
  }

  function Canonical(value: string): Option<string> {
    if !Admissible(value) then None
    else
      match Walk([], Parts(value))
      case None => None
      case Some(out) => if out == [] then None else Some(Text.Join(out, '/'))
  }

  /** `canonicalizeRelativePath`, pushing and popping the segments of `out`. */
  method CanonicalizeRelativePath(value: string) returns (r: Option<string>)
    ensures r == Canonical(value)
  {
    if |value| == 0 || |value| > MAX_PATH || (0 as char) in value {
      return None;
    }
    var parts := Text.Split(Slashes(value), '/');
    var out: seq<string> := [];
    for k := 0 to |parts|
      invariant Walk(out, parts[k..]) == Walk([], parts)
    {
      var part := parts[k];
      assert parts[k..][1..] == parts[k + 1..];
      if part == "" || part == "." {
        continue;
      }
      if part == ".." {
        if |out| == 0 {
          return None;
        }
        out := out[..|out| - 1];
        continue;
      }
      out := out + [part];
    }
    assert parts[|parts|..] == [];
    r := if |out| == 0 then None else Some(Text.Join(out, '/'));
  }

  // ---------- what the walk leaves ----------

  /** A segment that canonicalization leaves alone. */
  predicate IsClean(part: string) {
    IsName(part) && '/' !in part && '\\' !in part && (0 as char) !in part
  }

  ghost predicate AllClean(parts: seq<string>) {
    forall i | 0 <= i < |parts| :: IsClean(parts[i])
  }

  /** The characters that no segment of an admissible path holds. */
  ghost predicate PlainParts(parts: seq<string>) {
    forall i | 0 <= i < |parts| :: '/' !in parts[i] && '\\' !in parts[i] && (0 as char) !in parts[i]
  }

  function Weight(parts: seq<string>): nat {
    if parts == [] then 0 else |parts[0]| + 1 + Weight(parts[1..])
  }

  lemma {:induction false} WeightAppend(a: seq<string>, b: seq<string>)
    ensures Weight(a + b) == Weight(a) + Weight(b)
  {
    if a == [] {
      assert a + b == b;
    } else {
      WeightAppend(a[1..], b);
      assert (a + b)[1..] == a[1..] + b;
    }
  }

  lemma {:induction false} JoinLength(parts: seq<string>)
    requires parts != []
    ensures |Text.Join(parts, '/')| + 1 == Weight(parts)
  {
    if |parts| > 1 {
      JoinLength(parts[1..]);
    }
  }

  lemma {:induction false} WalkKeepsClean(out: seq<string>, parts: seq<string>)
    requires AllClean(out) && PlainParts(parts) && Walk(out, parts).Some?
    ensures AllClean(Walk(out, parts).value) && Weight(Walk(out, parts).value) <= Weight(out) + Weight(parts)
    decreases |parts|
  {
    if parts != [] {
      if IsSkipped(parts[0]) {
        WalkKeepsClean(out, parts[1..]);
      } else if parts[0] == ".." {
        var kept := out[..|out| - 1];
        WeightAppend(kept, [out[|out| - 1]]);
        assert out == kept + [out[|out| - 1]];
        WalkKeepsClean(kept, parts[1..]);
      } else {
        WeightAppend(out, [parts[0]]);
        WalkKeepsClean(out + [parts[0]], parts[1..]);
      }
    }
  }

  lemma {:induction false} WalkOfClean(out: seq<string>, parts: seq<string>)
    requires AllClean(parts)
    ensures Walk(out, parts) == Some(out + parts)
    decreases |parts|
  {
    if parts == [] {
      assert out + parts == out;
    } else {
      assert IsClean(parts[0]);
      WalkOfClean(out + [parts[0]], parts[1..]);
      assert out + [parts[0]] + parts[1..] == out + parts;
    }
  }

  lemma {:induction false} SplitChars(s: string, c: char, d: char)
    requires d !in s
    ensures forall i | 0 <= i < |Text.Split(s, c)| :: d !in Text.Split(s, c)[i]
  {
    if s != "" {
      SplitChars(s[1..], c, d);
    }
  }

  lemma SlashesChars(s: string)
    ensures '\\' !in Slashes(s)
    ensures (0 as char) !in s ==> (0 as char) !in Slashes(s)
    ensures '\\' !in s ==> Slashes(s) == s
  {
  }

  lemma PartsPlain(value: string)
    requires Admissible(value)
    ensures PlainParts(Parts(value)) && Weight(Parts(value)) == |value| + 1
  {
    SlashesChars(value);
    SplitChars(Slashes(value), '/', '\\');
    SplitChars(Slashes(value), '/', 0 as char);
    Text.JoinSplit(Slashes(value), '/');
    JoinLength(Parts(value));
  }

  lemma {:induction false} JoinChars(parts: seq<string>, d: char)
    requires d != '/' && forall i | 0 <= i < |parts| :: d !in parts[i]
    ensures d !in Text.Join(parts, '/')
  {
    if |parts| > 1 {
      JoinChars(parts[1..], d);
    }
  }

  /** A path joined from clean segments is canonical, and its segments are those. */
  lemma CleanIsCanonical(out: seq<string>)
    requires out != [] && AllClean(out) && Weight(out) <= MAX_PATH + 1
    ensures Parts(Text.Join(out, '/')) == out && Canonical(Text.Join(out, '/')) == Some(Text.Join(out, '/'))
  {
    var c := Text.Join(out, '/');
    JoinLength(out);
    JoinChars(out, '\\');
    JoinChars(out, 0 as char);
    SlashesChars(c);
    Text.SplitJoin(out, '/');
    WalkOfClean([], out);
    assert [] + out == out;
    assert |c| > 0 by {
      assert IsClean(out[0]);
    }
  }

  // ---------- main results ----------

  /** The result is made of clean segments and canonicalizes to itself. */
  lemma CanonicalIsIdempotent(value: string)
    requires Canonical(value).Some?
    ensures Canonical(Canonical(value).value) == Canonical(value)
    ensures AllClean(Parts(Canonical(value).value))
  {
    PartsPlain(value);
    WalkKeepsClean([], Parts(value));
    CleanIsCanonical(Walk([], Parts(value)).value);
  }

  function Ups(parts: seq<string>): nat {
    if parts == [] then 0 else (if parts[0] == ".." then 1 else 0) + Ups(parts[1..])
  }

  function Names(parts: seq<string>): nat {
    if parts == [] then 0 else (if IsName(parts[0]) then 1 else 0) + Names(parts[1..])
  }

  /** Some prefix climbs above `depth`. */
  ghost predicate Escapes(depth: nat, parts: seq<string>) {
    exists k | 0 <= k <= |parts| :: Ups(parts[..k]) > depth + Names(parts[..k])
  }

  lemma EscapesStep(depth: nat, parts: seq<string>)
    requires parts != [] && !(parts[0] == ".." && depth == 0)
    ensures Escapes(depth, parts) <==>
            Escapes(if parts[0] == ".." then depth - 1 else if IsName(parts[0]) then depth + 1 else depth, parts[1..])
  {
    var d := if parts[0] == ".." then depth - 1 else if IsName(parts[0]) then depth + 1 else depth;
    forall k | 0 < k <= |parts|
      ensures parts[..k][0] == parts[0] && parts[..k][1..] == parts[1..][..k - 1]
    {
    }
    if Escapes(depth, parts) {
      var k :| 0 <= k <= |parts| && Ups(parts[..k]) > depth + Names(parts[..k]);
      assert Ups(parts[1..][..k - 1]) > d + Names(parts[1..][..k - 1]);
    }
    if Escapes(d, parts[1..]) {
      var k :| 0 <= k <= |parts[1..]| && Ups(parts[1..][..k]) > d + Names(parts[1..][..k]);
      assert parts[..k + 1][1..] == parts[1..][..k];
      assert Ups(parts[..k + 1]) > depth + Names(parts[..k + 1]);
    }
  }

  lemma {:induction false} WalkCounts(out: seq<string>, parts: seq<string>)
    ensures Walk(out, parts).None? <==> Escapes(|out|, parts)
    ensures Walk(out, parts).Some? ==> |Walk(out, parts).value| == |out| + Names(parts) - Ups(parts)
    decreases |parts|
  {
    if parts == [] {
    } else if parts[0] == ".." && out == [] {
      assert parts[..1] == [".."] && [".."][1..] == [];
      assert Ups([".."]) == 1 && Names([".."]) == 0;
      assert Ups(parts[..1]) > |out| + Names(parts[..1]);
    } else {
      EscapesStep(|out|, parts);
      if IsSkipped(parts[0]) {
        WalkCounts(out, parts[1..]);
      } else if parts[0] == ".." {
        WalkCounts(out[..|out| - 1], parts[1..]);
      } else {
        WalkCounts(out + [parts[0]], parts[1..]);
      }
    }
  }

  /** Null exactly on empty, over-long or NUL input, on a prefix with more `..` than names, or on an empty result. */
  lemma CanonicalIsNullIff(value: string)
    ensures Canonical(value).None? <==>
            || value == "" || |value| > MAX_PATH || (0 as char) in value
            || Escapes(0, Parts(value)) || Names(Parts(value)) == Ups(Parts(value))
  {
    WalkCounts([], Parts(value));
    if Names(Parts(value)) == Ups(Parts(value)) && Walk([], Parts(value)).Some? {
      assert Walk([], Parts(value)).value == [];
    }
  }

  // ---------- the stricter check of the entry points ----------

  predicate IsSafeChar(c: char) {
    'a' <= c <= 'z' || 'A' <= c <= 'Z' || '0' <= c <= '9' || c == '/' || c == '_' || c == '.' || c == '@' || c == '-'
  }

  /** `assertSafeRelativePath`; None stands for the error it throws. */
  function AssertSafe(value: string): Option<string> {
    if !(0 < |value| <= MAX_PATH && forall i | 0 <= i < |value| :: IsSafeChar(value[i])) then None
    else if value[0] == '/' then None
    else if exists i | 0 <= i < |Parts(value)| :: !IsName(Parts(value)[i]) then None
    else Canonical(value)
  }

  /** What passes is already canonical: the check hands back the very string it was given. */
  lemma SafeIsUnchanged(value: string)
    ensures AssertSafe(value).Some? <==>
            && 0 < |value| <= MAX_PATH
            && (forall i | 0 <= i < |value| :: IsSafeChar(value[i]))
            && (forall i | 0 <= i < |Parts(value)| :: IsName(Parts(value)[i]))
    ensures AssertSafe(value).Some? ==> AssertSafe(value) == Some(value)
  {
    if 0 < |value| <= MAX_PATH && forall i | 0 <= i < |value| :: IsSafeChar(value[i]) {
      var parts := Parts(value);
      PartsPlain(value);
      SlashesChars(value);
      Text.JoinSplit(value, '/');
      if forall i | 0 <= i < |parts| :: IsName(parts[i]) {
        CleanIsCanonical(parts);
      }
    }
  }
}
