/** The string operations the modelled code relies on: searching, splitting at a character, joining. */
module Text {
  import opened Wrappers

  lemma Associate<T>(a: seq<T>, b: seq<T>, c: seq<T>)
    ensures a + b + c == a + (b + c)
  {
  }

  lemma AssociateFour<T>(a: seq<T>, b: seq<T>, c: seq<T>, d: seq<T>)
    ensures a + b + c + d == a + (b + c + d) == a + (b + (c + d))
  {
  }

  predicate HasAt(s: string, i: nat, t: string) {
    i + |t| <= |s| && s[i..i + |t|] == t
  }

  lemma HasAtChar(s: string, k: nat, t: string, j: nat)
    requires HasAt(s, k, t) && j < |t|
    ensures s[k + j] == t[j]
  {
    assert s[k..k + |t|][j] == s[k + j];
  }

  lemma HasAtTail(s: string, k: nat, t: string)
    requires s != "" && k > 0
    ensures HasAt(s, k, t) <==> HasAt(s[1..], k - 1, t)
  {
    if k + |t| <= |s| {
      var u, v := s[k..k + |t|], s[1..][k - 1..k - 1 + |t|];
      assert forall i | 0 <= i < |t| :: u[i] == s[k + i] && v[i] == s[1..][k - 1 + i] == s[k + i];
      assert u == v;
    }
  }

  /** Where `t` first occurs in `s`. */
  function IndexOf(s: string, t: string): (r: Option<nat>)
    ensures r.Some? ==> HasAt(s, r.value, t) && forall k: nat | k < r.value :: !HasAt(s, k, t)
    ensures r.None? ==> forall k: nat :: !HasAt(s, k, t)
    decreases |s|
  {
    if HasAt(s, 0, t) then Some(0)
    else if s == "" then None
    else
      var r := IndexOf(s[1..], t);
      assert forall k: nat | k > 0 :: HasAt(s, k, t) <==> HasAt(s[1..], k - 1, t) by {
        forall k: nat | k > 0 ensures HasAt(s, k, t) <==> HasAt(s[1..], k - 1, t) {
          HasAtTail(s, k, t);
        }
      }
      if r.None? then None else Some(r.value + 1)
  }

  predicate Includes(s: string, t: string) {
    IndexOf(s, t).Some?
  }

  predicate StartsWith(s: string, t: string) {
    HasAt(s, 0, t)
  }

  predicate EndsWith(s: string, t: string) {
    |t| <= |s| && s[|s| - |t|..] == t
  }

  // ---------- white space ----------

  /** White space and line terminators, as `trim` and the class `\s` understand them. */
  predicate IsWhiteSpace(c: char) {
    var n := c as int;
    || 9 <= n <= 13 || n == 32 || n == 0xA0 || n == 0x1680 || 0x2000 <= n <= 0x200A
    || n == 0x2028 || n == 0x2029 || n == 0x202F || n == 0x205F || n == 0x3000 || n == 0xFEFF
  }

  function TrimStart(s: string): (r: string)
    ensures |r| <= |s|
    ensures r != "" ==> !IsWhiteSpace(r[0])
  {
    if s != "" && IsWhiteSpace(s[0]) then TrimStart(s[1..]) else s
  }

  function TrimEnd(s: string): (r: string)
    ensures r <= s
    ensures r != "" ==> !IsWhiteSpace(r[|r| - 1])
  {
    if s != "" && IsWhiteSpace(s[|s| - 1]) then TrimEnd(s[..|s| - 1]) else s
  }

  function Trim(s: string): (r: string)
    ensures |r| <= |s|
    ensures r != "" ==> !IsWhiteSpace(r[0]) && !IsWhiteSpace(r[|r| - 1])
  {
    TrimEnd(TrimStart(s))
  }

  // ---------- splitting at a character and joining with it ----------

  /** The pieces of `s` between occurrences of `c`; never empty. */
  function Split(s: string, c: char): (parts: seq<string>)
    ensures parts != []
    ensures forall i | 0 <= i < |parts| :: c !in parts[i]
    ensures forall i | 0 <= i < |parts| :: |parts[i]| <= |s|
  {
    if s == "" then [""]
    else if s[0] == c then [""] + Split(s[1..], c)
    else
      var rest := Split(s[1..], c);
      [[s[0]] + rest[0]] + rest[1..]
  }

  function Join(parts: seq<string>, c: char): string {
    if parts == [] then "" else if |parts| == 1 then parts[0] else parts[0] + [c] + Join(parts[1..], c)
  }

  lemma JoinFront(part: string, parts: seq<string>, c: char)
    requires parts != []
    ensures Join([part] + parts, c) == part + [c] + Join(parts, c)
  {
    assert ([part] + parts)[1..] == parts;
  }

  /** A character put in front of the first part is one put in front of the joined text. */
  lemma JoinGlue(d: char, parts: seq<string>, c: char)
    requires parts != []
    ensures Join([[d] + parts[0]] + parts[1..], c) == [d] + Join(parts, c)
  {
    if |parts| > 1 {
      JoinFront([d] + parts[0], parts[1..], c);
      JoinFront(parts[0], parts[1..], c);
      assert [parts[0]] + parts[1..] == parts;
      Associate([d], parts[0], [c]);
      Associate([d], parts[0] + [c], Join(parts[1..], c));
    } else {
      assert [[d] + parts[0]] + parts[1..] == [[d] + parts[0]];
    }
  }

  lemma {:induction false} JoinSplit(s: string, c: char)
    ensures Join(Split(s, c), c) == s
  {
    if s != "" {
      JoinSplit(s[1..], c);
      assert s == [s[0]] + s[1..];
      if s[0] == c {
        JoinFront("", Split(s[1..], c), c);
      } else {
        JoinGlue(s[0], Split(s[1..], c), c);
      }
    }
  }

  /** Splitting a text whose first piece is `p`. */
  lemma {:induction false} SplitPiece(p: string, c: char, rest: string)
    requires c !in p
    ensures Split(p, c) == [p]
    ensures Split(p + [c] + rest, c) == [p] + Split(rest, c)
    decreases |p|
  {
    if p == "" {
      assert (p + [c] + rest)[1..] == rest;
    } else {
      SplitPiece(p[1..], c, rest);
      assert (p + [c] + rest)[1..] == p[1..] + [c] + rest;
      assert [p[0]] + p[1..] == p;
      var q := Split(p[1..] + [c] + rest, c);
      assert q[0] == p[1..] && q[1..] == Split(rest, c);
    }
  }

  lemma {:induction false} SplitJoin(parts: seq<string>, c: char)
    requires parts != [] && forall i | 0 <= i < |parts| :: c !in parts[i]
    ensures Split(Join(parts, c), c) == parts
  {
    if |parts| == 1 {
      SplitPiece(parts[0], c, "");
      assert parts == [parts[0]];
    } else {
      SplitJoin(parts[1..], c);
      SplitPiece(parts[0], c, Join(parts[1..], c));
      assert parts == [parts[0]] + parts[1..];
    }
  }

  lemma {:induction false} JoinAppend(a: seq<string>, b: seq<string>, c: char)
    requires a != [] && b != []
    ensures Join(a + b, c) == Join(a, c) + [c] + Join(b, c)
  {
    if |a| == 1 {
      assert a + b == [a[0]] + b && (a + b)[1..] == b;
    } else {
      assert (a + b)[1..] == a[1..] + b;
      JoinAppend(a[1..], b, c);
    }
  }
}
