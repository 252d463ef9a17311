/** Replacing a unique piece of text in a file, in the whole of it or in a range of lines. */
module LinePatch {
  import opened Wrappers
  import Text

  datatype PatchError = NotFound | NotUnique(count: int)

  const MAX_FILE := 5_000_000

  // ---------- string primitives ----------

  /** `s.split(t).length - 1`: occurrences that do not overlap; an empty `t` splits into characters. */
  function Count(s: string, t: string): int
    decreases |s|
  {
    if t == "" then |s| - 1
    else
      match Text.IndexOf(s, t)
      case None => 0
      case Some(i) => 1 + Count(s[i + |t|..], t)
  }

  /** The replacement with its `$` patterns filled in. */
  function Expand(r: string, before: string, matched: string, after: string): string {
    if r == "" then ""
    else if r[0] == '$' && |r| >= 2 && r[1] == '$' then "$" + Expand(r[2..], before, matched, after)
    else if r[0] == '$' && |r| >= 2 && r[1] == '&' then matched + Expand(r[2..], before, matched, after)
    else if r[0] == '$' && |r| >= 2 && r[1] == '`' then before + Expand(r[2..], before, matched, after)
    else if r[0] == '$' && |r| >= 2 && r[1] == '\'' then after + Expand(r[2..], before, matched, after)
    else [r[0]] + Expand(r[1..], before, matched, after)
  }

  /** `s.replace(t, r)`: the first occurrence only. */
  function ReplaceFirst(s: string, t: string, r: string): string {
    match Text.IndexOf(s, t)
    case None => s
    case Some(i) => s[..i] + Expand(r, s[..i], t, s[i + |t|..]) + s[i + |t|..]
  }

  /** A slice bound of JavaScript: negative ones count from the end. */
  function Bound(i: int, n: nat): (b: nat)
    ensures b <= n
  {
    if i < 0 then (if n + i < 0 then 0 else n + i) else if i > n then n else i
  }

  function Slice(lines: seq<string>, start: int, end: int): seq<string> {
    var a, b := Bound(start, |lines|), Bound(end, |lines|);
    if a < b then lines[a..b] else []
  }

  function Cap(s: string): string {
    if |s| > MAX_FILE then s[..MAX_FILE] else s
  }

  // ---------- the two forms of the patch ----------

  function PatchWhole(content: string, target: string, replacement: string): Result<string, PatchError> {
    var n := Count(content, target);
    if n == 0 then Err(NotFound)
    else if n > 1 then Err(NotUnique(n))
    else Ok(ReplaceFirst(content, target, replacement))
  }

  /** Line numbers count from 1; zero stands for a missing one. */
  function StartIndex(startLine: int): nat {
    if startLine == 0 then 0 else (if startLine < 1 then 1 else startLine) - 1
  }

  function EndIndex(endLine: int, n: nat): (e: int)
    ensures e <= n - 1
  {
    if endLine == 0 then n - 1 else (if endLine > n then n else endLine) - 1
  }

  function Lines(content: string): seq<string> {
    Text.Split(content, '\n')
  }

  function RangeText(content: string, startLine: int, endLine: int): string {
    var lines := Lines(content);
    Text.Join(Slice(lines, StartIndex(startLine), EndIndex(endLine, |lines|) + 1), '\n')
  }

  function Before(content: string, startLine: int): string {
    var start := StartIndex(startLine);
    if start > 0 then Text.Join(Slice(Lines(content), 0, start), '\n') + "\n" else ""
  }

  function After(content: string, endLine: int): string {
    var lines := Lines(content);
    var end := EndIndex(endLine, |lines|);
    if end < |lines| - 1 then "\n" + Text.Join(Slice(lines, end + 1, |lines|), '\n') else ""
  }

  /** The text of the range with the target replaced. */
  function NewRange(content: string, target: string, replacement: string, startLine: int, endLine: int): string {
    ReplaceFirst(RangeText(content, startLine, endLine), target, replacement)
  }

  function PatchRange(content: string, target: string, replacement: string, startLine: int, endLine: int)
    : Result<string, PatchError>
  {
    var text := RangeText(content, startLine, endLine);
    if Text.IndexOf(text, target).None? then Err(NotFound)
    else if Count(text, target) > 1 then Err(NotUnique(Count(text, target)))
    else Ok(Before(content, startLine) + ReplaceFirst(text, target, replacement) + After(content, endLine))
  }

  /** The text that replaces `content`, before the length cap of the write. */
  function Patched(content: string, target: string, replacement: string, startLine: int, endLine: int)
    : Result<string, PatchError>
  {
    if startLine == 0 && endLine == 0 then PatchWhole(content, target, replacement)
    else PatchRange(content, target, replacement, startLine, endLine)
  }

  /** What is written: at most `MAX_FILE` characters of it. */
  function Written(content: string, target: string, replacement: string, startLine: int, endLine: int)
    : Result<string, PatchError>
  {
    match Patched(content, target, replacement, startLine, endLine)
    case Err(e) => Err(e)
    case Ok(text) => Ok(Cap(text))
  }

  /** The text in which the target is looked for. */
  function Scope(content: string, startLine: int, endLine: int): string {
    if startLine == 0 && endLine == 0 then content else RangeText(content, startLine, endLine)
  }

  /** Where the target stands in the whole text. */
  function Position(content: string, target: string, startLine: int, endLine: int): nat
    requires Text.Includes(Scope(content, startLine, endLine), target)
  {
    if startLine == 0 && endLine == 0 then FirstAt(content, target)
    else |Before(content, startLine)| + FirstAt(RangeText(content, startLine, endLine), target)
  }

  /** The length that the patched text would have fits the cap of the write. */
  predicate Fits(content: string, target: string, replacement: string) {
    |content| - |target| + |replacement| <= MAX_FILE
  }

  /**
   A patch goes through exactly when the target stands in its scope once; then, for a replacement without
   patterns, the target is replaced where it stands and everything else is kept, exactly if the result fits the
   cap.  An empty target stands between any two characters.
   */
  ghost predicate GoesThroughRight(content: string, target: string, replacement: string, startLine: int, endLine: int,
                                   r: Result<string, PatchError>)
  {
    var scope := Scope(content, startLine, endLine);
    && (target != "" ==>
          && (r.Ok? <==> Text.Includes(scope, target) && !OccursTwice(scope, target))
          && (r == Err(NotFound) <==> !Text.Includes(scope, target)))
    && (target == "" ==> (r.Ok? <==> |scope| <= 2 && !(|scope| == 1 && startLine == 0 && endLine == 0)))
    && (r.Ok? && target != "" && '$' !in replacement ==>
          (Fits(content, target, replacement) <==>
           ChangedAt(content, target, replacement, Position(content, target, startLine, endLine), r.value)))
  }

  /** `patchFileHelper`, from the text read to the text written. */
  method PatchFile(content: string, target: string, replacement: string, startLine: int, endLine: int)
    returns (r: Result<string, PatchError>)
    ensures r == Written(content, target, replacement, startLine, endLine)
    ensures GoesThroughRight(content, target, replacement, startLine, endLine, r)
  {
    if startLine == 0 && endLine == 0 {
      var occurrences := Count(content, target);
      if occurrences == 0 {
        r := Err(NotFound);
      } else if occurrences > 1 {
        r := Err(NotUnique(occurrences));
      } else {
        r := Ok(Cap(ReplaceFirst(content, target, replacement)));
      }
    } else {
      r := PatchLines(content, target, replacement, startLine, endLine);
    }
    WrittenMeans(content, target, replacement, startLine, endLine);
  }

  /** The form with line numbers. */
  method PatchLines(content: string, target: string, replacement: string, startLine: int, endLine: int)
    returns (r: Result<string, PatchError>)
    requires !(startLine == 0 && endLine == 0)
    ensures r == Written(content, target, replacement, startLine, endLine)
    ensures GoesThroughRight(content, target, replacement, startLine, endLine, r)
  {
    WrittenMeans(content, target, replacement, startLine, endLine);
    var lines := Text.Split(content, '\n');
    var startIdx := StartIndex(startLine);
    var endIdx := EndIndex(endLine, |lines|);
    var rangeText := Text.Join(Slice(lines, startIdx, endIdx + 1), '\n');
    if Text.IndexOf(rangeText, target).None? {
      return Err(NotFound);
    }
    var occurrences := Count(rangeText, target);
    if occurrences > 1 {
      return Err(NotUnique(occurrences));
    }
    var newRangeText := ReplaceFirst(rangeText, target, replacement);
    var final := Assemble(lines, startIdx, endIdx, newRangeText);
    r := Ok(Cap(final));
  }

  /** Building the new text around the changed range. */
  method Assemble(lines: seq<string>, startIdx: nat, endIdx: int, text: string) returns (final: string)
    ensures final == (if startIdx > 0 then Text.Join(Slice(lines, 0, startIdx), '\n') + "\n" else "")
                     + text
                     + (if endIdx < |lines| - 1 then "\n" + Text.Join(Slice(lines, endIdx + 1, |lines|), '\n') else "")
  {
    final := "";
    if startIdx > 0 {
      final := final + Text.Join(Slice(lines, 0, startIdx), '\n') + "\n";
    }
    final := final + text;
    if endIdx < |lines| - 1 {
      final := final + "\n" + Text.Join(Slice(lines, endIdx + 1, |lines|), '\n');
    }
  }

  // ---------- the replacement without patterns ----------

  lemma {:induction false} PlainExpands(r: string, before: string, matched: string, after: string)
    requires '$' !in r
    ensures Expand(r, before, matched, after) == r
    decreases |r|
  {
    if r != "" {
      PlainExpands(r[1..], before, matched, after);
      assert r == [r[0]] + r[1..];
    }
  }

  /** The text with its stretch `t` at `i` changed to `r`; None where `t` does not stand. */
  function Change(s: string, t: string, r: string, i: nat): Option<string> {
    if Text.HasAt(s, i, t) then Some(s[..i] + r + s[i + |t|..]) else None
  }

  ghost predicate ChangedAt(s: string, t: string, r: string, i: nat, u: string) {
    Change(s, t, r, i) == Some(u)
  }

  /** Where `t` first stands in `s`. */
  function FirstAt(s: string, t: string): nat
    requires Text.Includes(s, t)
  {
    Text.IndexOf(s, t).value
  }

  lemma ReplaceChanges(s: string, t: string, r: string)
    requires '$' !in r && Text.Includes(s, t)
    ensures ChangedAt(s, t, r, FirstAt(s, t), ReplaceFirst(s, t, r))
  {
    var i := Text.IndexOf(s, t).value;
    PlainExpands(r, s[..i], t, s[i + |t|..]);
  }

  // ---------- the range inside the text ----------

  /** The lines of the range, as a half-open interval of indices. */
  ghost predicate IsRange(content: string, startLine: int, endLine: int, a: nat, b: nat) {
    var n := |Lines(content)|;
    a == Bound(StartIndex(startLine), n) && b == Bound(EndIndex(endLine, n) + 1, n)
  }

  /** Where the range is not empty, the three parts make up the text. */
  lemma RangeSplitsText(content: string, startLine: int, endLine: int, a: nat, b: nat)
    requires IsRange(content, startLine, endLine, a, b) && a < b
    ensures content == Before(content, startLine) + RangeText(content, startLine, endLine) + After(content, endLine)
    ensures RangeText(content, startLine, endLine) == Text.Join(Lines(content)[a..b], '\n')
    ensures Before(content, startLine) == Head(Lines(content), a) && After(content, endLine) == Tail(Lines(content), b)
  {
    var lines := Lines(content);
    Text.JoinSplit(content, '\n');
    JoinThree(lines, a, b);
    assert lines[0..a] == lines[..a] && lines[b..|lines|] == lines[b..];
  }

  lemma JoinCut(lines: seq<string>, k: nat)
    requires 0 < k < |lines|
    ensures Text.Join(lines, '\n') == Text.Join(lines[..k], '\n') + "\n" + Text.Join(lines[k..], '\n')
  {
    Text.JoinAppend(lines[..k], lines[k..], '\n');
    assert lines[..k] + lines[k..] == lines;
  }

  function Head(lines: seq<string>, a: nat): string
    requires a <= |lines|
  {
    if a > 0 then Text.Join(lines[..a], '\n') + "\n" else ""
  }

  function Tail(lines: seq<string>, b: nat): string
    requires b <= |lines|
  {
    if b < |lines| then "\n" + Text.Join(lines[b..], '\n') else ""
  }

  lemma JoinHead(lines: seq<string>, a: nat)
    requires a < |lines|
    ensures Text.Join(lines, '\n') == Head(lines, a) + Text.Join(lines[a..], '\n')
  {
    if a > 0 {
      JoinCut(lines, a);
    } else {
      assert lines[a..] == lines;
    }
  }

  lemma JoinTail(lines: seq<string>, b: nat)
    requires 0 < b <= |lines|
    ensures Text.Join(lines, '\n') == Text.Join(lines[..b], '\n') + Tail(lines, b)
  {
    if b < |lines| {
      JoinCut(lines, b);
      assert Text.Join(lines[..b], '\n') + "\n" + Text.Join(lines[b..], '\n') ==
             Text.Join(lines[..b], '\n') + Tail(lines, b);
    } else {
      assert lines[..b] == lines;
    }
  }

  lemma RestOfRest(lines: seq<string>, a: nat, b: nat)
    requires a <= b <= |lines|
    ensures lines[a..][..b - a] == lines[a..b] && Tail(lines[a..], b - a) == Tail(lines, b)
  {
    assert lines[a..][b - a..] == lines[b..];
  }

  lemma JoinThree(lines: seq<string>, a: nat, b: nat)
    requires a < b <= |lines|
    ensures Text.Join(lines, '\n') == Head(lines, a) + Text.Join(lines[a..b], '\n') + Tail(lines, b)
  {
    JoinHead(lines, a);
    JoinTail(lines[a..], b - a);
    RestOfRest(lines, a, b);
    Text.Associate(Head(lines, a), Text.Join(lines[a..b], '\n'), Tail(lines, b));
  }

  lemma FoundMeansRange(content: string, target: string, startLine: int, endLine: int, a: nat, b: nat)
    requires target != "" && IsRange(content, startLine, endLine, a, b)
    requires Text.IndexOf(RangeText(content, startLine, endLine), target).Some?
    ensures a < b
  {
    assert a >= b ==> RangeText(content, startLine, endLine) == "";
  }

  // ---------- splitting a text made of three parts ----------

  lemma {:induction false} SplitAppend(a: string, b: string)
    ensures Lines(a + "\n" + b) == Lines(a) + Lines(b)
    decreases |a|
  {
    var s := a + "\n" + b;
    if a == "" {
      assert s == "\n" + b && s[1..] == b;
      assert Lines("") == [""];
    } else {
      SplitAppend(a[1..], b);
      assert s[1..] == a[1..] + "\n" + b && s[0] == a[0];
      FirstLine(a[0], Lines(a[1..]), Lines(b));
    }
  }

  lemma FirstLine(c: char, x: seq<string>, y: seq<string>)
    requires x != []
    ensures [""] + (x + y) == [""] + x + y
    ensures [[c] + (x + y)[0]] + (x + y)[1..] == [[c] + x[0]] + x[1..] + y
  {
    assert (x + y)[1..] == x[1..] + y;
  }

  lemma LinesOfJoin(parts: seq<string>)
    requires parts != [] && forall i | 0 <= i < |parts| :: '\n' !in parts[i]
    ensures Lines(Text.Join(parts, '\n')) == parts
  {
    Text.SplitJoin(parts, '\n');
  }

  // ---------- main results ----------

  lemma RangePatchChanges(content: string, target: string, replacement: string, startLine: int, endLine: int,
                          a: nat, b: nat)
    requires target != "" && '$' !in replacement && IsRange(content, startLine, endLine, a, b) && a < b
    requires PatchRange(content, target, replacement, startLine, endLine).Ok?
    ensures ChangedAt(content, target, replacement,
                      |Before(content, startLine)| + FirstAt(RangeText(content, startLine, endLine), target),
                      PatchRange(content, target, replacement, startLine, endLine).value)
  {
    RangeParts(content, startLine, endLine, a, b);
    OkValue(content, target, replacement, startLine, endLine);
    ReplaceInside(content, Before(content, startLine), RangeText(content, startLine, endLine), After(content, endLine),
                  target, replacement, PatchRange(content, target, replacement, startLine, endLine).value);
  }

  lemma RangeParts(content: string, startLine: int, endLine: int, a: nat, b: nat)
    requires IsRange(content, startLine, endLine, a, b) && a < b
    ensures content == Before(content, startLine) + RangeText(content, startLine, endLine) + After(content, endLine)
  {
    RangeSplitsText(content, startLine, endLine, a, b);
  }

  lemma OkValue(content: string, target: string, replacement: string, startLine: int, endLine: int)
    requires PatchRange(content, target, replacement, startLine, endLine).Ok?
    ensures Text.Includes(RangeText(content, startLine, endLine), target)
    ensures PatchRange(content, target, replacement, startLine, endLine).value ==
            Before(content, startLine) + ReplaceFirst(RangeText(content, startLine, endLine), target, replacement) +
              After(content, endLine)
  {
  }

  lemma ReplaceInside(content: string, before: string, text: string, after: string, t: string, r: string,
                      patched: string)
    requires '$' !in r && Text.Includes(text, t)
    requires content == before + text + after && patched == before + ReplaceFirst(text, t, r) + after
    ensures ChangedAt(content, t, r, |before| + FirstAt(text, t), patched)
  {
    ReplaceChanges(text, t, r);
    ChangeInside(before, text, after, t, r, FirstAt(text, t), ReplaceFirst(text, t, r));
  }

  lemma FoundFits(s: string, t: string)
    requires Text.Includes(s, t)
    ensures FirstAt(s, t) + |t| <= |s|
  {
    assert Text.HasAt(s, FirstAt(s, t), t);
  }

  lemma RangePatchLines(content: string, target: string, replacement: string, startLine: int, endLine: int,
                        a: nat, b: nat)
    requires IsRange(content, startLine, endLine, a, b) && a < b
    requires PatchRange(content, target, replacement, startLine, endLine).Ok?
    ensures Lines(PatchRange(content, target, replacement, startLine, endLine).value) ==
            Lines(content)[..a] + Lines(ReplaceFirst(RangeText(content, startLine, endLine), target, replacement)) +
              Lines(content)[b..]
  {
    RangeSplitsText(content, startLine, endLine, a, b);
    LinesOfThree(Lines(content), a, b, ReplaceFirst(RangeText(content, startLine, endLine), target, replacement));
  }

  /**
   Before the cap a successful range patch changes one stretch of the text, from the target to the
   replacement, inside the range; the lines before and after the range are kept as they are.
   */
  lemma PatchedRangeIsLocal(content: string, target: string, replacement: string, startLine: int, endLine: int,
                            a: nat, b: nat)
    requires target != "" && '$' !in replacement && IsRange(content, startLine, endLine, a, b)
    requires PatchRange(content, target, replacement, startLine, endLine).Ok?
    ensures a < b
    ensures ChangedAt(content, target, replacement,
                      |Before(content, startLine)| + FirstAt(RangeText(content, startLine, endLine), target),
                      PatchRange(content, target, replacement, startLine, endLine).value)
    ensures FirstAt(RangeText(content, startLine, endLine), target) + |target| <=
            |RangeText(content, startLine, endLine)|
    ensures Lines(PatchRange(content, target, replacement, startLine, endLine).value) ==
            Lines(content)[..a] + Lines(ReplaceFirst(RangeText(content, startLine, endLine), target, replacement)) +
              Lines(content)[b..]
  {
    FoundMeansRange(content, target, startLine, endLine, a, b);
    RangePatchChanges(content, target, replacement, startLine, endLine, a, b);
    FoundFits(RangeText(content, startLine, endLine), target);
    RangePatchLines(content, target, replacement, startLine, endLine, a, b);
  }

  lemma ChangeInside(before: string, text: string, after: string, t: string, r: string, i: nat, changed: string)
    requires ChangedAt(text, t, r, i, changed)
    ensures ChangedAt(before + text + after, t, r, |before| + i, before + changed + after)
  {
    var s := before + text + after;
    assert s[|before| + i..|before| + i + |t|] == text[i..i + |t|];
    assert s[..|before| + i] == before + text[..i];
    assert s[|before| + i + |t|..] == text[i + |t|..] + after;
    assert s[..|before| + i] + r + s[|before| + i + |t|..] == before + changed + after;
  }

  lemma LinesOfThree(lines: seq<string>, a: nat, b: nat, text: string)
    requires a < b <= |lines| && forall i | 0 <= i < |lines| :: '\n' !in lines[i]
    ensures Lines(Head(lines, a) + text + Tail(lines, b)) == lines[..a] + Lines(text) + lines[b..]
  {
    LinesBeforeTail(lines, b, text);
    LinesAfterHead(lines, a, text + Tail(lines, b));
    Text.Associate(Head(lines, a), text, Tail(lines, b));
    Text.Associate(lines[..a], Lines(text), lines[b..]);
  }

  lemma LinesBeforeTail(lines: seq<string>, b: nat, text: string)
    requires b <= |lines| && forall i | 0 <= i < |lines| :: '\n' !in lines[i]
    ensures Lines(text + Tail(lines, b)) == Lines(text) + lines[b..]
  {
    if b < |lines| {
      SplitAppend(text, Text.Join(lines[b..], '\n'));
      LinesOfJoin(lines[b..]);
      Text.Associate(text, "\n", Text.Join(lines[b..], '\n'));
    } else {
      assert text + Tail(lines, b) == text;
    }
  }

  lemma LinesAfterHead(lines: seq<string>, a: nat, text: string)
    requires a <= |lines| && forall i | 0 <= i < |lines| :: '\n' !in lines[i]
    ensures Lines(Head(lines, a) + text) == lines[..a] + Lines(text)
  {
    if a > 0 {
      SplitAppend(Text.Join(lines[..a], '\n'), text);
      LinesOfJoin(lines[..a]);
    } else {
      assert "" + text == text;
    }
  }

  lemma {:induction false} CountFound(s: string, t: string)
    requires t != ""
    ensures Count(s, t) >= 0 && (Count(s, t) == 0 <==> Text.IndexOf(s, t).None?)
    decreases |s|
  {
    if Text.IndexOf(s, t).Some? {
      CountFound(s[Text.IndexOf(s, t).value + |t|..], t);
    }
  }

  /** Two occurrences that do not overlap. */
  ghost predicate OccursTwice(s: string, t: string) {
    exists i: nat, j: nat :: i + |t| <= j && Text.HasAt(s, i, t) && Text.HasAt(s, j, t)
  }

  lemma RestHasAt(s: string, k: nat, j: nat, t: string)
    requires k <= j && k <= |s|
    ensures Text.HasAt(s, j, t) <==> Text.HasAt(s[k..], j - k, t)
  {
    if j + |t| <= |s| {
      assert s[k..][j - k..j - k + |t|] == s[j..j + |t|];
    }
  }

  /** Where to look for a second occurrence. */
  function AfterFirst(s: string, t: string): string
    requires Text.IndexOf(s, t).Some?
  {
    s[Text.IndexOf(s, t).value + |t|..]
  }

  lemma CountsBoth(s: string, t: string)
    requires t != "" && Text.IndexOf(s, t).Some?
    ensures Count(s, t) > 1 <==> Text.IndexOf(AfterFirst(s, t), t).Some?
  {
    CountFound(AfterFirst(s, t), t);
  }

  /** A place in the rest behind the first occurrence, as a place in the whole text. */
  function BehindFirst(s: string, t: string, j: nat): nat
    requires Text.IndexOf(s, t).Some?
  {
    Text.IndexOf(s, t).value + |t| + j
  }

  lemma BehindFirstHasAt(s: string, t: string, j: nat)
    requires Text.IndexOf(s, t).Some?
    ensures Text.HasAt(s, BehindFirst(s, t, j), t) <==> Text.HasAt(AfterFirst(s, t), j, t)
  {
    RestHasAt(s, Text.IndexOf(s, t).value + |t|, BehindFirst(s, t, j), t);
  }

  lemma SecondIsApart(s: string, t: string)
    requires Text.IndexOf(s, t).Some? && Text.IndexOf(AfterFirst(s, t), t).Some?
    ensures OccursTwice(s, t)
  {
    BehindFirstHasAt(s, t, Text.IndexOf(AfterFirst(s, t), t).value);
    assert Text.HasAt(s, Text.IndexOf(s, t).value, t);
  }

  lemma FirstIsBefore(s: string, k: nat, t: string)
    requires Text.HasAt(s, k, t)
    ensures Text.IndexOf(s, t).Some? && Text.IndexOf(s, t).value <= k && Text.IndexOf(s, t).value + |t| <= |s|
  {
  }

  lemma ApartIsSecond(s: string, t: string)
    requires OccursTwice(s, t)
    ensures Text.IndexOf(s, t).Some? && Text.IndexOf(AfterFirst(s, t), t).Some?
  {
    var m: nat, j: nat :| m + |t| <= j && Text.HasAt(s, m, t) && Text.HasAt(s, j, t);
    FirstIsBefore(s, m, t);
    ApartHasAt(s, t, j - (Text.IndexOf(s, t).value + |t|), j);
  }

  lemma ApartHasAt(s: string, t: string, k: nat, j: nat)
    requires Text.IndexOf(s, t).Some? && j == BehindFirst(s, t, k) && Text.HasAt(s, j, t)
    ensures Text.IndexOf(AfterFirst(s, t), t).Some?
  {
    BehindFirstHasAt(s, t, k);
    FirstIsBefore(AfterFirst(s, t), k, t);
  }

  lemma CountsTwo(s: string, t: string)
    requires t != ""
    ensures Count(s, t) > 1 <==> OccursTwice(s, t)
  {
    if Text.IndexOf(s, t).Some? {
      CountsBoth(s, t);
      if Count(s, t) > 1 {
        SecondIsApart(s, t);
      }
    }
    if OccursTwice(s, t) {
      ApartIsSecond(s, t);
    }
  }

  /**
   A patch goes through exactly when its text contains the target and no second occurrence apart from the
   first; overlapping ones are not noticed.
   */
  lemma PatchedIff(content: string, target: string, replacement: string, startLine: int, endLine: int)
    requires target != ""
    ensures var text := if startLine == 0 && endLine == 0 then content else RangeText(content, startLine, endLine);
            Patched(content, target, replacement, startLine, endLine).Ok? <==>
            Text.Includes(text, target) && !OccursTwice(text, target)
  {
    var text := if startLine == 0 && endLine == 0 then content else RangeText(content, startLine, endLine);
    CountFound(text, target);
    CountsTwo(text, target);
  }

  /** A range that covers every line does what the whole-file form does. */
  lemma FullRangeIsWholeFile(content: string, target: string, replacement: string, startLine: int, endLine: int)
    requires target != "" && startLine <= 1 && (endLine == 0 || endLine >= |Lines(content)|)
    ensures PatchRange(content, target, replacement, startLine, endLine) == PatchWhole(content, target, replacement)
  {
    var n := |Lines(content)|;
    RangeSplitsText(content, startLine, endLine, 0, n);
    assert content == "" + RangeText(content, startLine, endLine) + "";
    assert content == RangeText(content, startLine, endLine);
    CountFound(content, target);
    var changed := ReplaceFirst(content, target, replacement);
    assert "" + changed + "" == changed;
  }

  predicate IsOnce(s: string, t: string) {
    Count(s, t) == 1
  }

  /** In `u` the text `r` stands once, where `t` first stands in `s`. */
  predicate StandsOnceFor(u: string, r: string, s: string, t: string) {
    IsOnce(u, r) && Text.IndexOf(u, r) == Text.IndexOf(s, t)
  }

  lemma BackInPlace(s: string, t: string, r: string)
    requires t != "" && r != "" && '$' !in t && '$' !in r && Text.Includes(s, t)
    ensures StandsOnceFor(ReplaceFirst(s, t, r), r, s, t) ==> ReplaceFirst(ReplaceFirst(s, t, r), r, t) == s
  {
    if StandsOnceFor(ReplaceFirst(s, t, r), r, s, t) {
      ReplaceChanges(s, t, r);
      ReplaceChanges(ReplaceFirst(s, t, r), r, t);
      ChangeBack(s, t, r, FirstAt(s, t), ReplaceFirst(s, t, r));
    }
  }

  /** Before the cap, patching back restores the text when the replacement occurs once, where it was put. */
  lemma PatchedWholeReverses(content: string, target: string, replacement: string)
    requires target != "" && replacement != "" && '$' !in target && '$' !in replacement
    requires PatchWhole(content, target, replacement).Ok?
    requires StandsOnceFor(PatchWhole(content, target, replacement).value, replacement, content, target)
    ensures PatchWhole(PatchWhole(content, target, replacement).value, replacement, target) == Ok(content)
  {
    CountFound(content, target);
    BackInPlace(content, target, replacement);
  }

  lemma ChangeBack(s: string, t: string, r: string, i: nat, u: string)
    requires ChangedAt(s, t, r, i, u)
    ensures u[..i] + t + u[i + |r|..] == s
  {
    assert u[..i] == s[..i] && u[i + |r|..] == s[i + |t|..];
    assert s == s[..i] + s[i..i + |t|] + s[i + |t|..];
  }

  /** The range of these lines, and what stands before and after it. */
  ghost predicate HasParts(s: string, startLine: int, endLine: int, before: string, text: string, after: string) {
    RangeText(s, startLine, endLine) == text && Before(s, startLine) == before && After(s, endLine) == after
  }

  predicate Yields(r: Result<string, PatchError>, text: string) {
    r == Ok(text)
  }

  /** A range patch whose range is where another one put its replacement. */
  lemma PatchedRange(content: string, target: string, replacement: string, startLine: int, endLine: int,
                     a: nat, b: nat, patched: string, n: nat)
    requires IsRange(content, startLine, endLine, a, b) && a < b
    requires Yields(PatchRange(content, target, replacement, startLine, endLine), patched)
    requires n == |Lines(NewRange(content, target, replacement, startLine, endLine))|
    ensures HasParts(patched, a + 1, a + n, Before(content, startLine),
                     NewRange(content, target, replacement, startLine, endLine),
                     After(content, endLine))
  {
    RangePatchLines(content, target, replacement, startLine, endLine, a, b);
    RangeSplitsText(content, startLine, endLine, a, b);
    NewLines(Lines(patched), Lines(content), Lines(NewRange(content, target, replacement, startLine, endLine)), a, b);
    LinesRange(patched, a, n);
    Text.JoinSplit(NewRange(content, target, replacement, startLine, endLine), '\n');
  }

  /** The range of `n` whole lines from index `a` on. */
  lemma LinesRange(s: string, a: nat, n: nat)
    requires n > 0 && a + n <= |Lines(s)|
    ensures HasParts(s, a + 1, a + n, Head(Lines(s), a), Text.Join(Lines(s)[a..a + n], '\n'), Tail(Lines(s), a + n))
  {
    RangeSplitsText(s, a + 1, a + n, a, a + n);
  }

  lemma NewLines(ls: seq<string>, lines: seq<string>, added: seq<string>, a: nat, b: nat)
    requires a < b <= |lines| && ls == lines[..a] + added + lines[b..]
    ensures ls[a..a + |added|] == added && ls[..a] == lines[..a] && ls[a + |added|..] == lines[b..]
    ensures Head(ls, a) == Head(lines, a) && Tail(ls, a + |added|) == Tail(lines, b)
  {
  }

  /** The same for a range: patching back runs over the lines that the replacement left in the range. */
  lemma PatchedRangeReverses(content: string, target: string, replacement: string, startLine: int, endLine: int,
                             a: nat, b: nat, patched: string, n: nat)
    requires target != "" && replacement != "" && '$' !in target && '$' !in replacement
    requires IsRange(content, startLine, endLine, a, b)
    requires n == |Lines(NewRange(content, target, replacement, startLine, endLine))|
    ensures Yields(PatchRange(content, target, replacement, startLine, endLine), patched) &&
            StandsOnceFor(NewRange(content, target, replacement, startLine, endLine), replacement,
                          RangeText(content, startLine, endLine), target) ==>
              Yields(PatchRange(patched, replacement, target, a + 1, a + n), content)
  {
    if Yields(PatchRange(content, target, replacement, startLine, endLine), patched) {
      OkValue(content, target, replacement, startLine, endLine);
      FoundMeansRange(content, target, startLine, endLine, a, b);
      PatchedRange(content, target, replacement, startLine, endLine, a, b, patched, n);
      BackInPlace(RangeText(content, startLine, endLine), target, replacement);
      RangeParts(content, startLine, endLine, a, b);
      PatchOfParts(patched, replacement, target, a + 1, a + n, Before(content, startLine),
                   NewRange(content, target, replacement, startLine, endLine), After(content, endLine));
    }
  }

  lemma PatchOfParts(s: string, t: string, r: string, startLine: int, endLine: int, before: string, text: string,
                     after: string)
    requires t != ""
    ensures HasParts(s, startLine, endLine, before, text, after) && IsOnce(text, t) ==>
              PatchRange(s, t, r, startLine, endLine) == Ok(before + ReplaceFirst(text, t, r) + after)
  {
    CountFound(text, t);
  }

  // ---------- what is written ----------

  lemma ChangedLength(s: string, t: string, r: string, i: nat, u: string)
    requires ChangedAt(s, t, r, i, u)
    ensures |u| == |s| - |t| + |r|
  {
  }

  lemma CapKeepsIff(s: string)
    ensures Cap(s) == s <==> |s| <= MAX_FILE
    ensures |Cap(s)| <= |s| && |Cap(s)| <= MAX_FILE
  {
  }

  /** The whole-file form is the range form over all lines. */
  lemma PatchedIsRange(content: string, target: string, replacement: string, startLine: int, endLine: int)
    requires target != ""
    ensures Patched(content, target, replacement, startLine, endLine) ==
            PatchRange(content, target, replacement, startLine, endLine)
    ensures Scope(content, startLine, endLine) == RangeText(content, startLine, endLine)
  {
    if startLine == 0 && endLine == 0 {
      FullRangeIsWholeFile(content, target, replacement, 0, 0);
      RangeSplitsText(content, 0, 0, 0, |Lines(content)|);
      assert "" + RangeText(content, 0, 0) + "" == RangeText(content, 0, 0);
    }
  }

  /** Before the cap the target is replaced where it stands. */
  lemma PatchedChanges(content: string, target: string, replacement: string, startLine: int, endLine: int)
    requires target != "" && '$' !in replacement && Patched(content, target, replacement, startLine, endLine).Ok?
    ensures Text.Includes(Scope(content, startLine, endLine), target)
    ensures ChangedAt(content, target, replacement, Position(content, target, startLine, endLine),
                      Patched(content, target, replacement, startLine, endLine).value)
  {
    PatchedIff(content, target, replacement, startLine, endLine);
    if startLine == 0 && endLine == 0 {
      ReplaceChanges(content, target, replacement);
    } else {
      RangeChanges(content, target, replacement, startLine, endLine);
    }
  }

  lemma RangeChanges(content: string, target: string, replacement: string, startLine: int, endLine: int)
    requires target != "" && '$' !in replacement && PatchRange(content, target, replacement, startLine, endLine).Ok?
    ensures Text.Includes(RangeText(content, startLine, endLine), target)
    ensures ChangedAt(content, target, replacement,
                      |Before(content, startLine)| + FirstAt(RangeText(content, startLine, endLine), target),
                      PatchRange(content, target, replacement, startLine, endLine).value)
  {
    OkValue(content, target, replacement, startLine, endLine);
    FoundRange(content, target, startLine, endLine);
    RangePatchChanges(content, target, replacement, startLine, endLine,
                      Bound(StartIndex(startLine), |Lines(content)|),
                      Bound(EndIndex(endLine, |Lines(content)|) + 1, |Lines(content)|));
  }

  lemma FoundRange(content: string, target: string, startLine: int, endLine: int)
    requires target != "" && Text.Includes(RangeText(content, startLine, endLine), target)
    ensures Bound(StartIndex(startLine), |Lines(content)|) <
            Bound(EndIndex(endLine, |Lines(content)|) + 1, |Lines(content)|)
  {
    FoundMeansRange(content, target, startLine, endLine, Bound(StartIndex(startLine), |Lines(content)|),
                    Bound(EndIndex(endLine, |Lines(content)|) + 1, |Lines(content)|));
  }

  lemma WrittenMeans(content: string, target: string, replacement: string, startLine: int, endLine: int)
    ensures GoesThroughRight(content, target, replacement, startLine, endLine,
                             Written(content, target, replacement, startLine, endLine))
  {
    if target != "" {
      PatchedIff(content, target, replacement, startLine, endLine);
      NotFoundIff(content, target, replacement, startLine, endLine);
      if '$' !in replacement && Patched(content, target, replacement, startLine, endLine).Ok? {
        WrittenChangesIff(content, target, replacement, startLine, endLine);
      }
    } else {
      EmptyTarget(Scope(content, startLine, endLine));
    }
  }

  lemma NotFoundIff(content: string, target: string, replacement: string, startLine: int, endLine: int)
    requires target != ""
    ensures Patched(content, target, replacement, startLine, endLine) == Err(NotFound) <==>
            !Text.Includes(Scope(content, startLine, endLine), target)
  {
    CountFound(Scope(content, startLine, endLine), target);
  }

  lemma EmptyTarget(s: string)
    ensures Text.IndexOf(s, "") == Some(0) && Count(s, "") == |s| - 1
  {
    assert Text.HasAt(s, 0, "");
  }

  /** The written text is the changed text exactly when that fits the cap. */
  lemma WrittenChangesIff(content: string, target: string, replacement: string, startLine: int, endLine: int)
    requires target != "" && '$' !in replacement && Patched(content, target, replacement, startLine, endLine).Ok?
    ensures Text.Includes(Scope(content, startLine, endLine), target)
    ensures Fits(content, target, replacement) <==>
            ChangedAt(content, target, replacement, Position(content, target, startLine, endLine),
                      Cap(Patched(content, target, replacement, startLine, endLine).value))
    ensures Fits(content, target, replacement) <==>
            Written(content, target, replacement, startLine, endLine) ==
              Patched(content, target, replacement, startLine, endLine)
    ensures |Patched(content, target, replacement, startLine, endLine).value| == |content| - |target| + |replacement|
  {
    PatchedChanges(content, target, replacement, startLine, endLine);
    ChangedLength(content, target, replacement, Position(content, target, startLine, endLine),
                  Patched(content, target, replacement, startLine, endLine).value);
    CapKeepsIff(Patched(content, target, replacement, startLine, endLine).value);
  }

  // ---------- main results on the written text ----------

  lemma LinesInjective(s: string, u: string)
    ensures Lines(s) == Lines(u) <==> s == u
  {
    Text.JoinSplit(s, '\n');
    Text.JoinSplit(u, '\n');
  }

  /**
   What a successful patch writes keeps every line before and after the range, and changes the one stretch in
   it, exactly if the changed text fits the cap; a longer one loses lines at its end.
   */
  lemma RangePatchIsLocal(content: string, target: string, replacement: string, startLine: int, endLine: int,
                          a: nat, b: nat)
    requires target != "" && '$' !in replacement && IsRange(content, startLine, endLine, a, b)
    requires Written(content, target, replacement, startLine, endLine).Ok?
    ensures a < b && Text.Includes(RangeText(content, startLine, endLine), target)
    ensures FirstAt(RangeText(content, startLine, endLine), target) + |target| <=
            |RangeText(content, startLine, endLine)|
    ensures Fits(content, target, replacement) <==>
            Lines(Written(content, target, replacement, startLine, endLine).value) ==
            Lines(content)[..a] + Lines(NewRange(content, target, replacement, startLine, endLine)) +
              Lines(content)[b..]
    ensures Fits(content, target, replacement) <==>
            ChangedAt(content, target, replacement,
                      |Before(content, startLine)| + FirstAt(RangeText(content, startLine, endLine), target),
                      Written(content, target, replacement, startLine, endLine).value)
  {
    PatchedIsRange(content, target, replacement, startLine, endLine);
    PatchedRangeIsLocal(content, target, replacement, startLine, endLine, a, b);
    WrittenChangesIff(content, target, replacement, startLine, endLine);
    LinesInjective(Written(content, target, replacement, startLine, endLine).value,
                   Patched(content, target, replacement, startLine, endLine).value);
    assert startLine == 0 ==> Before(content, startLine) == "";
  }

  /** Patching back with the same file operation restores the text exactly when both texts fit the cap. */
  lemma WholePatchReverses(content: string, target: string, replacement: string)
    requires target != "" && replacement != "" && '$' !in target && '$' !in replacement
    requires Written(content, target, replacement, 0, 0).Ok?
    requires StandsOnceFor(Written(content, target, replacement, 0, 0).value, replacement, content, target)
    ensures Yields(Written(Written(content, target, replacement, 0, 0).value, replacement, target, 0, 0), content) <==>
            |content| <= MAX_FILE && Fits(content, target, replacement)
  {
    WrittenChangesIff(content, target, replacement, 0, 0);
    if Fits(content, target, replacement) {
      PatchedWholeReverses(content, target, replacement);
      CapKeepsIff(content);
    } else {
      BackIsShorter(content, target, replacement, Written(content, target, replacement, 0, 0).value, 0, 0);
    }
  }

  /** A patch back from a text that was cut off gives a shorter text than the original one. */
  lemma BackIsShorter(content: string, target: string, replacement: string, w: string, startLine: int, endLine: int)
    requires target != "" && replacement != "" && '$' !in target
    ensures |w| <= MAX_FILE && !Fits(content, target, replacement) ==>
              !Yields(Written(w, replacement, target, startLine, endLine), content)
  {
    if |w| <= MAX_FILE && !Fits(content, target, replacement) &&
       Patched(w, replacement, target, startLine, endLine).Ok? {
      WrittenChangesIff(w, replacement, target, startLine, endLine);
      CapKeepsIff(Patched(w, replacement, target, startLine, endLine).value);
    }
  }

  /** The same for a range: patching back runs over the `n` lines that the replacement left in the range. */
  lemma RangePatchReverses(content: string, target: string, replacement: string, startLine: int, endLine: int,
                           a: nat, b: nat, w: string, n: nat)
    requires target != "" && replacement != "" && '$' !in target && '$' !in replacement
    requires IsRange(content, startLine, endLine, a, b)
    requires Yields(Written(content, target, replacement, startLine, endLine), w)
    requires StandsOnceFor(NewRange(content, target, replacement, startLine, endLine), replacement,
                           RangeText(content, startLine, endLine), target)
    requires n == |Lines(NewRange(content, target, replacement, startLine, endLine))|
    ensures Yields(Written(w, replacement, target, a + 1, a + n), content) <==>
            |content| <= MAX_FILE && Fits(content, target, replacement)
  {
    WrittenIsPatched(content, target, replacement, startLine, endLine, w);
    FittingRangeReverses(content, target, replacement, startLine, endLine, a, b, w, n);
    AnyBackIsShorter(content, target, replacement, w);
  }

  lemma AnyBackIsShorter(content: string, target: string, replacement: string, w: string)
    requires target != "" && replacement != "" && '$' !in target
    ensures |w| <= MAX_FILE && !Fits(content, target, replacement) ==>
              forall startLine, endLine :: !Yields(Written(w, replacement, target, startLine, endLine), content)
  {
    forall startLine, endLine
      ensures |w| <= MAX_FILE && !Fits(content, target, replacement) ==>
                !Yields(Written(w, replacement, target, startLine, endLine), content)
    {
      BackIsShorter(content, target, replacement, w, startLine, endLine);
    }
  }

  lemma FittingRangeReverses(content: string, target: string, replacement: string, startLine: int, endLine: int,
                             a: nat, b: nat, w: string, n: nat)
    requires target != "" && replacement != "" && '$' !in target && '$' !in replacement
    requires IsRange(content, startLine, endLine, a, b)
    requires n == |Lines(NewRange(content, target, replacement, startLine, endLine))|
    ensures Yields(PatchRange(content, target, replacement, startLine, endLine), w) &&
            StandsOnceFor(NewRange(content, target, replacement, startLine, endLine), replacement,
                          RangeText(content, startLine, endLine), target) ==>
              (Yields(Written(w, replacement, target, a + 1, a + n), content) <==> |content| <= MAX_FILE)
  {
    PatchedRangeReverses(content, target, replacement, startLine, endLine, a, b, w, n);
    WrittenOfRange(w, replacement, target, a + 1, a + n, content);
  }

  lemma WrittenIsPatched(content: string, target: string, replacement: string, startLine: int, endLine: int, w: string)
    requires target != "" && '$' !in replacement
    ensures Yields(Written(content, target, replacement, startLine, endLine), w) ==>
              && |w| <= MAX_FILE
              && (Fits(content, target, replacement) ==>
                  Yields(PatchRange(content, target, replacement, startLine, endLine), w))
  {
    PatchedIsRange(content, target, replacement, startLine, endLine);
    if Patched(content, target, replacement, startLine, endLine).Ok? {
      WrittenChangesIff(content, target, replacement, startLine, endLine);
    }
  }

  lemma WrittenOfRange(content: string, target: string, replacement: string, startLine: int, endLine: int, u: string)
    requires startLine != 0
    ensures Yields(PatchRange(content, target, replacement, startLine, endLine), u) ==>
              (Yields(Written(content, target, replacement, startLine, endLine), u) <==> |u| <= MAX_FILE)
  {
    CapKeepsIff(u);
  }

  /** Two lines, the second one as long as the cap allows: a patch of the first line cuts the second one short. */
  lemma CapCutsLineOutsideRange() returns (content: string, w: string)
    ensures |Lines(content)| == 2 && Lines(content)[0] == "a" && |Lines(content)[1]| == MAX_FILE
    ensures Written(content, "a", "ab", 1, 1) == Ok(w)
    ensures |Lines(w)| == 2 && Lines(w)[0] == "ab" && |Lines(w)[1]| == MAX_FILE - 3
  {
    var long := seq(MAX_FILE, i => 'b');
    content := "a" + "\n" + long;
    SplitAppend("a", long);
    LinesOfJoin(["a"]);
    LinesOfJoin([long]);
    assert Lines(content) == ["a", long];
    assert RangeText(content, 1, 1) == "a" by {
      assert Lines(content)[0..1] == ["a"];
    }
    OnceInItself();
    PatchedIff(content, "a", "ab", 1, 1);
    var patched := PatchRange(content, "a", "ab", 1, 1).value;
    assert patched == "ab" + "\n" + long by {
      OkValue(content, "a", "ab", 1, 1);
      assert Lines(content)[1..2] == [long];
    }
    w := Cap(patched);
    var cut := long[..MAX_FILE - 3];
    assert w == "ab" + "\n" + cut;
    SplitAppend("ab", cut);
    LinesOfJoin(["ab"]);
    LinesOfJoin([cut]);
  }

  lemma OnceInItself()
    ensures Text.IndexOf("a", "a") == Some(0) && !OccursTwice("a", "a") && ReplaceFirst("a", "a", "ab") == "ab"
  {
    assert Text.HasAt("a", 0, "a");
    PlainExpands("ab", "", "a", "");
  }
}
