/** Splitting a command line into words, and writing words so that they split back. */
module ShellWords {
  import Text

  const MAX_COMMAND_LINE_LENGTH := 8 * 1024

  // ---------- the tokenizer ----------

  /** Where the tokenizer stands: finished words, the current one, and its three flags. */
  datatype State = State(words: seq<string>, current: string, inDouble: bool, inSingle: bool, escaped: bool)

  const START := State([], "", false, false, false)

  function Read(s: State, c: char): State {
    if s.escaped then s.(current := s.current + [c], escaped := false)
    else if c == '\\' then s.(escaped := true)
    else if c == '\"' && !s.inSingle then s.(inDouble := !s.inDouble)
    else if c == '\'' && !s.inDouble then s.(inSingle := !s.inSingle)
    else if (c == ' ' || c == '\t') && !s.inDouble && !s.inSingle then
      if s.current == "" then s else s.(words := s.words + [s.current], current := "")
    else s.(current := s.current + [c])
  }

  function ReadAll(s: State, text: string): State
    decreases |text|
  {
    if text == "" then s else Read(ReadAll(s, text[..|text| - 1]), text[|text| - 1])
  }

  function Bounded(commandLine: string): (r: string)
    ensures |r| <= MAX_COMMAND_LINE_LENGTH && r <= commandLine
  {
    if |commandLine| > MAX_COMMAND_LINE_LENGTH then commandLine[..MAX_COMMAND_LINE_LENGTH] else commandLine
  }

  function Words(commandLine: string): seq<string> {
    var s := ReadAll(START, Bounded(commandLine));
    if s.current == "" then s.words else s.words + [s.current]
  }

  /** `parseShellCommand` */
  method ParseShellCommand(commandLine: string) returns (args: seq<string>)
    ensures args == Words(commandLine)
  {
    args := [];
    var current := "";
    var inDoubleQuotes, inSingleQuotes, escaped := false, false, false;
    var bounded := Bounded(commandLine);
    for i := 0 to |bounded|
      invariant ReadAll(START, bounded[..i]) == State(args, current, inDoubleQuotes, inSingleQuotes, escaped)
    {
      var c := bounded[i];
      assert bounded[..i + 1][..i] == bounded[..i];
      if escaped {
        current := current + [c];
        escaped := false;
        continue;
      }
      if c == '\\' {
        escaped := true;
        continue;
      }
      if c == '\"' && !inSingleQuotes {
        inDoubleQuotes := !inDoubleQuotes;
        continue;
      }
      if c == '\'' && !inDoubleQuotes {
        inSingleQuotes := !inSingleQuotes;
        continue;
      }
      if (c == ' ' || c == '\t') && !inDoubleQuotes && !inSingleQuotes {
        if |current| > 0 {
          args := args + [current];
          current := "";
        }
        continue;
      }
      current := current + [c];
    }
    assert bounded[..|bounded|] == bounded;
    if |current| > 0 {
      args := args + [current];
    }
  }

  // ---------- the escaper ----------

  function ReplaceChar(s: string, c: char, with: string): string {
    if s == "" then "" else (if s[0] == c then with else [s[0]]) + ReplaceChar(s[1..], c, with)
  }

  /** Backslashes first, then quotes. */
  function EscapeForDoubleQuotedShell(value: string): string {
    ReplaceChar(ReplaceChar(value, '\\', "\\\\"), '\"', "\\\"")
  }

  function Quoted(word: string): string {
    "\"" + EscapeForDoubleQuotedShell(word) + "\""
  }

  function QuotedLine(words: seq<string>): string {
    if words == [] then ""
    else if |words| == 1 then Quoted(words[0])
    else Quoted(words[0]) + " " + QuotedLine(words[1..])
  }

  // ---------- reading in pieces ----------

  lemma {:induction false} ReadAppend(s: State, a: string, b: string)
    ensures ReadAll(s, a + b) == ReadAll(ReadAll(s, a), b)
    decreases |b|
  {
    if b == "" {
      assert a + b == a;
    } else {
      var n := |b| - 1;
      ReadAppend(s, a, b[..n]);
      assert (a + b)[..|a + b| - 1] == a + b[..n];
    }
  }

  lemma ReadFront(s: State, c: char, rest: string)
    ensures ReadAll(s, [c] + rest) == ReadAll(Read(s, c), rest)
  {
    ReadAppend(s, [c], rest);
    assert [c][..0] == "";
  }

  lemma ReadThree(s: State, a: string, b: string, rest: string)
    ensures ReadAll(s, a + b + rest) == ReadAll(ReadAll(ReadAll(s, a), b), rest)
  {
    ReadAppend(s, a + b, rest);
    ReadAppend(s, a, b);
  }

  lemma BlankReads(s: State)
    requires !s.inDouble && !s.inSingle && !s.escaped && s.current != ""
    ensures ReadAll(s, " ") == s.(words := s.words + [s.current], current := "")
  {
    assert " "[..0] == "" && " "[0] == ' ';
  }

  lemma {:induction false} ReplaceAppend(a: string, b: string, c: char, with: string)
    ensures ReplaceChar(a + b, c, with) == ReplaceChar(a, c, with) + ReplaceChar(b, c, with)
    decreases |a|
  {
    if a == "" {
      assert a + b == b;
    } else {
      ReplaceAppend(a[1..], b, c, with);
      assert (a + b)[1..] == a[1..] + b && (a + b)[0] == a[0];
      Text.Associate(if a[0] == c then with else [a[0]], ReplaceChar(a[1..], c, with), ReplaceChar(b, c, with));
    }
  }

  function EscapedChar(c: char): string {
    if c == '\\' then "\\\\" else if c == '\"' then "\\\"" else [c]
  }

  /** The two replacements together escape each character on its own. */
  lemma EscapeFront(value: string)
    requires value != ""
    ensures EscapeForDoubleQuotedShell(value) == EscapedChar(value[0]) + EscapeForDoubleQuotedShell(value[1..])
  {
    var c := value[0];
    var p := if c == '\\' then "\\\\" else [c];
    ReplaceAppend(p, ReplaceChar(value[1..], '\\', "\\\\"), '\"', "\\\"");
    if c == '\\' {
      assert p == ['\\', '\\'] && p[1..] == ['\\'];
      assert ReplaceChar(['\\'], '\"', "\\\"") == ['\\'] + ReplaceChar(['\\'][1..], '\"', "\\\"");
    } else {
      assert p[1..] == "";
    }
    assert ReplaceChar(p, '\"', "\\\"") == EscapedChar(c);
  }

  lemma EscapedStep(s: State, value: string)
    requires s.inDouble && !s.inSingle && !s.escaped && value != ""
    ensures ReadAll(s, EscapeForDoubleQuotedShell(value)) ==
            ReadAll(s.(current := s.current + [value[0]]), EscapeForDoubleQuotedShell(value[1..]))
  {
    EscapeFront(value);
    ReadAppend(s, EscapedChar(value[0]), EscapeForDoubleQuotedShell(value[1..]));
    EscapedCharReads(s, value[0]);
  }

  /** Inside double quotes the escaped form of a value reads as the value. */
  lemma {:induction false} EscapedReads(s: State, value: string)
    requires s.inDouble && !s.inSingle && !s.escaped
    ensures ReadAll(s, EscapeForDoubleQuotedShell(value)) == s.(current := s.current + value)
    decreases |value|
  {
    if value == "" {
      NothingReads(s);
    } else {
      var t := s.(current := s.current + [value[0]]);
      EscapedStep(s, value);
      EscapedReads(t, value[1..]);
      SameCurrent(s, value[0], value[1..]);
      assert [value[0]] + value[1..] == value;
    }
  }

  lemma NothingReads(s: State)
    ensures ReadAll(s, EscapeForDoubleQuotedShell("")) == s == s.(current := s.current + "")
  {
    assert s.current + "" == s.current;
  }

  lemma SameCurrent(s: State, c: char, rest: string)
    ensures s.(current := s.current + [c] + rest) == s.(current := s.current + ([c] + rest))
  {
    assert s.current + [c] + rest == s.current + ([c] + rest);
  }

  lemma EscapedCharReads(s: State, c: char)
    requires s.inDouble && !s.inSingle && !s.escaped
    ensures ReadAll(s, EscapedChar(c)) == s.(current := s.current + [c])
  {
    ReadFront(s, EscapedChar(c)[0], EscapedChar(c)[1..]);
    assert EscapedChar(c) == [EscapedChar(c)[0]] + EscapedChar(c)[1..];
    if c == '\\' || c == '\"' {
      assert EscapedChar(c)[1..] == [c];
      ReadFront(s.(escaped := true), c, "");
      assert [c] + "" == [c];
    }
  }

  lemma QuotedReads(s: State, word: string)
    requires !s.inDouble && !s.inSingle && !s.escaped
    ensures ReadAll(s, Quoted(word)) == s.(current := s.current + word)
  {
    var e := EscapeForDoubleQuotedShell(word);
    var t := s.(inDouble := true);
    ReadFront(s, '\"', e + "\"");
    assert Quoted(word) == ['\"'] + (e + "\"");
    ReadAppend(t, e, "\"");
    EscapedReads(t, word);
    var u := t.(current := s.current + word);
    ReadFront(u, '\"', "");
    assert ['\"'] + "" == "\"";
  }

  lemma {:induction false} LineReads(s: State, words: seq<string>)
    requires !s.inDouble && !s.inSingle && !s.escaped && s.current == ""
    requires words != [] && forall i | 0 <= i < |words| :: words[i] != ""
    ensures ReadAll(s, QuotedLine(words)) == s.(words := s.words + words[..|words| - 1], current := words[|words| - 1])
    decreases |words|
  {
    if |words| == 1 {
      QuotedReads(s, words[0]);
      assert "" + words[0] == words[0] && s.words + words[..0] == s.words;
    } else {
      LineFront(s, words);
      LineReads(s.(words := s.words + [words[0]]), words[1..]);
      WordsRegroup(s.words, words);
    }
  }

  lemma LineFront(s: State, words: seq<string>)
    requires !s.inDouble && !s.inSingle && !s.escaped && s.current == "" && |words| > 1 && words[0] != ""
    ensures ReadAll(s, QuotedLine(words)) == ReadAll(s.(words := s.words + [words[0]]), QuotedLine(words[1..]))
  {
    QuotedThen(s, words[0], QuotedLine(words[1..]));
  }

  /** A quoted word, then a blank, then more. */
  lemma QuotedThen(s: State, word: string, rest: string)
    requires !s.inDouble && !s.inSingle && !s.escaped && s.current == "" && word != ""
    ensures ReadAll(s, Quoted(word) + " " + rest) == ReadAll(s.(words := s.words + [word]), rest)
  {
    ReadThree(s, Quoted(word), " ", rest);
    QuotedReads(s, word);
    assert "" + word == word;
    BlankReads(s.(current := word));
  }

  lemma WordsRegroup(before: seq<string>, words: seq<string>)
    requires |words| > 1
    ensures before + [words[0]] + words[1..][..|words| - 2] == before + words[..|words| - 1]
    ensures words[1..][|words| - 2] == words[|words| - 1]
  {
    assert words[..|words| - 1] == [words[0]] + words[1..][..|words| - 2];
  }

  // ---------- main results ----------

  /** Non-empty words, quoted and joined within the length limit, split back into themselves. */
  lemma QuotedLineSplitsBack(words: seq<string>)
    requires forall i | 0 <= i < |words| :: words[i] != ""
    requires |QuotedLine(words)| <= MAX_COMMAND_LINE_LENGTH
    ensures Words(QuotedLine(words)) == words
  {
    if words != [] {
      LineReads(START, words);
      assert [] + words[..|words| - 1] + [words[|words| - 1]] == words;
    }
  }

  /** A word without quotes, backslashes and blanks reads as itself. */
  predicate IsBare(word: string) {
    word != "" && forall i | 0 <= i < |word| ::
      word[i] != '\\' && word[i] != '\"' && word[i] != '\'' && word[i] != ' ' && word[i] != '\t'
  }

  lemma {:induction false} BareReads(s: State, word: string)
    requires !s.escaped && (word == "" || IsBare(word))
    ensures ReadAll(s, word) == s.(current := s.current + word)
    decreases |word|
  {
    if word == "" {
      assert s.current + "" == s.current;
    } else {
      var n := |word| - 1;
      BareReads(s, word[..n]);
      assert s.current + word[..n] + [word[n]] == s.current + word;
    }
  }

  /** A bare word, then a blank, then more. */
  lemma BareThen(s: State, word: string, rest: string)
    requires !s.inDouble && !s.inSingle && !s.escaped && s.current == "" && IsBare(word)
    ensures ReadAll(s, word + " " + rest) == ReadAll(s.(words := s.words + [word]), rest)
  {
    ReadThree(s, word, " ", rest);
    BareReads(s, word);
    assert "" + word == word;
    BlankReads(s.(current := word));
  }

  function Total(words: seq<string>): nat {
    if words == [] then 0 else Total(words[..|words| - 1]) + |words[|words| - 1]|
  }

  /** Every finished word took its own characters and at least one blank. */
  lemma {:induction false} ReadBudget(text: string)
    ensures var s := ReadAll(START, text);
            Total(s.words) + |s.words| + |s.current| <= |text|
    decreases |text|
  {
    if text != "" {
      var before := ReadAll(START, text[..|text| - 1]);
      ReadBudget(text[..|text| - 1]);
      assert (before.words + [before.current])[..|before.words|] == before.words;
    }
  }

  /** The words of a line and the blanks between them fit into the line. */
  lemma WordsFit(line: string)
    ensures Words(line) != [] ==> Total(Words(line)) + |Words(line)| - 1 <= |line|
  {
    var s := ReadAll(START, Bounded(line));
    ReadBudget(Bounded(line));
    assert (s.words + [s.current])[..|s.words|] == s.words;
  }

  // ---------- lines in general ----------

  /** One character inside quotes: as it is, or behind a backslash. */
  datatype Item = Lit(c: char) | Esc(c: char)

  /** What a word is put together from; inside single quotes, too, a backslash escapes. */
  datatype Piece = Raw(c: char) | Escaped(c: char) | Quote(mark: char, items: seq<Item>)

  type Word = seq<Piece>

  predicate IsBlank(c: char) { c == ' ' || c == '\t' }

  predicate LegalPiece(p: Piece) {
    match p
    case Raw(c) => IsBare([c])
    case Escaped(_) => true
    case Quote(mark, items) =>
      && (mark == '\"' || mark == '\'')
      && forall i | 0 <= i < |items| && items[i].Lit? :: items[i].c != '\\' && items[i].c != mark
  }

  predicate LegalWord(w: Word) {
    forall i | 0 <= i < |w| :: LegalPiece(w[i])
  }

  /** Blanks only; between two words at least one. */
  predicate LegalGaps(words: seq<Word>, gaps: seq<string>) {
    && |gaps| == |words| + 1
    && (forall i, j | 0 <= i < |gaps| && 0 <= j < |gaps[i]| :: IsBlank(gaps[i][j]))
    && forall i | 0 < i < |words| :: gaps[i] != ""
  }

  function ItemText(i: Item): string {
    if i.Lit? then [i.c] else ['\\', i.c]
  }

  function ItemsText(items: seq<Item>): string {
    if items == [] then "" else ItemText(items[0]) + ItemsText(items[1..])
  }

  function ItemsValue(items: seq<Item>): string {
    if items == [] then "" else [items[0].c] + ItemsValue(items[1..])
  }

  function PieceText(p: Piece): string {
    match p
    case Raw(c) => [c]
    case Escaped(c) => ['\\', c]
    case Quote(mark, items) => [mark] + (ItemsText(items) + [mark])
  }

  function PieceValue(p: Piece): string {
    if p.Quote? then ItemsValue(p.items) else [p.c]
  }

  function WordText(w: Word): string {
    if w == [] then "" else PieceText(w[0]) + WordText(w[1..])
  }

  function WordValue(w: Word): string {
    if w == [] then "" else PieceValue(w[0]) + WordValue(w[1..])
  }

  function LineText(words: seq<Word>, gaps: seq<string>): string
    requires |gaps| == |words| + 1
  {
    if words == [] then gaps[0] else gaps[0] + WordText(words[0]) + LineText(words[1..], gaps[1..])
  }

  /** The values of the words; a word like `""` has none. */
  function Values(words: seq<Word>): seq<string> {
    if words == [] then [] else (if WordValue(words[0]) == "" then [] else [WordValue(words[0])]) + Values(words[1..])
  }

  predicate Outside(s: State) {
    !s.inDouble && !s.inSingle && !s.escaped
  }

  /** Inside quotes opened by this mark. */
  predicate Within(s: State, mark: char) {
    !s.escaped && (if mark == '\"' then s.inDouble && !s.inSingle else mark == '\'' && s.inSingle && !s.inDouble)
  }

  function Finished(s: State): seq<string> {
    if s.current == "" then s.words else s.words + [s.current]
  }

  function Adding(s: State, text: string): State {
    s.(current := s.current + text)
  }

  lemma AddingTwice(s: State, a: string, b: string)
    ensures Adding(Adding(s, a), b) == Adding(s, a + b)
  {
    assert s.current + a + b == s.current + (a + b);
  }

  lemma EscapedPairReads(s: State, c: char)
    requires !s.escaped
    ensures ReadAll(s, ['\\', c]) == Adding(s, [c])
  {
    ReadFront(s, '\\', [c]);
    ReadFront(s.(escaped := true), c, "");
    assert ['\\'] + [c] == ['\\', c] && [c] + "" == [c];
  }

  lemma OneReads(s: State, c: char)
    ensures ReadAll(s, [c]) == Read(s, c)
  {
    ReadFront(s, c, "");
    assert [c] + "" == [c];
  }

  lemma {:induction false} ItemsRead(s: State, mark: char, items: seq<Item>)
    requires Within(s, mark) && LegalPiece(Quote(mark, items))
    ensures ReadAll(s, ItemsText(items)) == Adding(s, ItemsValue(items))
    decreases |items|
  {
    if items == [] {
      assert s.current + "" == s.current;
    } else {
      if items[0].Lit? {
        OneReads(s, items[0].c);
      } else {
        EscapedPairReads(s, items[0].c);
      }
      var t := Adding(s, [items[0].c]);
      ReadAppend(s, ItemText(items[0]), ItemsText(items[1..]));
      ItemsRead(t, mark, items[1..]);
      AddingTwice(s, [items[0].c], ItemsValue(items[1..]));
    }
  }

  lemma PieceReads(s: State, p: Piece)
    requires Outside(s) && LegalPiece(p)
    ensures ReadAll(s, PieceText(p)) == Adding(s, PieceValue(p))
  {
    match p
    case Raw(c) =>
      assert IsBare([c]) && [c][0] == c;
      OneReads(s, c);
    case Escaped(c) => EscapedPairReads(s, c);
    case Quote(mark, items) =>
      ReadFront(s, mark, ItemsText(items) + [mark]);
      var t := Read(s, mark);
      ReadAppend(t, ItemsText(items), [mark]);
      ItemsRead(t, mark, items);
      OneReads(Adding(t, ItemsValue(items)), mark);
  }

  lemma {:induction false} WordReads(s: State, w: Word)
    requires Outside(s) && LegalWord(w)
    ensures ReadAll(s, WordText(w)) == Adding(s, WordValue(w))
    decreases |w|
  {
    if w == [] {
      assert s.current + "" == s.current;
    } else {
      PieceReads(s, w[0]);
      ReadAppend(s, PieceText(w[0]), WordText(w[1..]));
      WordReads(Adding(s, PieceValue(w[0])), w[1..]);
      AddingTwice(s, PieceValue(w[0]), WordValue(w[1..]));
    }
  }

  lemma {:induction false} GapReads(s: State, gap: string)
    requires Outside(s) && forall j | 0 <= j < |gap| :: IsBlank(gap[j])
    ensures ReadAll(s, gap) == if gap == "" then s else s.(words := Finished(s), current := "")
    decreases |gap|
  {
    if gap != "" {
      GapReads(s, gap[..|gap| - 1]);
    }
  }

  lemma {:induction false} TextReads(s: State, words: seq<Word>, gaps: seq<string>)
    requires Outside(s) && LegalGaps(words, gaps) && forall i | 0 <= i < |words| :: LegalWord(words[i])
    requires s.current == "" || gaps[0] != "" || words == []
    ensures Outside(ReadAll(s, LineText(words, gaps)))
    ensures Finished(ReadAll(s, LineText(words, gaps))) == Finished(s) + Values(words)
    decreases |words|
  {
    if words == [] {
      GapReads(s, gaps[0]);
    } else {
      GapWordReads(s, gaps[0], words[0]);
      ReadAppend(s, gaps[0] + WordText(words[0]), LineText(words[1..], gaps[1..]));
      var t := State(Finished(s), WordValue(words[0]), false, false, false);
      TextReads(t, words[1..], gaps[1..]);
      FinishedValues(s, words);
    }
  }

  lemma GapWordReads(s: State, gap: string, w: Word)
    requires Outside(s) && LegalWord(w) && forall j | 0 <= j < |gap| :: IsBlank(gap[j])
    requires s.current == "" || gap != ""
    ensures ReadAll(s, gap + WordText(w)) == State(Finished(s), WordValue(w), false, false, false)
  {
    GapReads(s, gap);
    ReadAppend(s, gap, WordText(w));
    WordReads(ReadAll(s, gap), w);
    assert "" + WordValue(w) == WordValue(w);
  }

  lemma FinishedValues(s: State, words: seq<Word>)
    requires words != []
    ensures Finished(State(Finished(s), WordValue(words[0]), false, false, false)) + Values(words[1..]) ==
            Finished(s) + Values(words)
  {
    var value := WordValue(words[0]);
    Text.Associate(Finished(s), if value == "" then [] else [value], Values(words[1..]));
    assert Finished(s) + [] == Finished(s);
  }

  /**
   However its words are written, in bare characters, escapes, single and double quotes in any mixture, and
   whatever blanks stand around them, a line within the limit splits into the non-empty values of its words.
   */
  lemma WrittenLineSplits(words: seq<Word>, gaps: seq<string>)
    requires LegalGaps(words, gaps) && forall i | 0 <= i < |words| :: LegalWord(words[i])
    requires |LineText(words, gaps)| <= MAX_COMMAND_LINE_LENGTH
    ensures Words(LineText(words, gaps)) == Values(words)
  {
    TextReads(START, words, gaps);
    assert Finished(START) + Values(words) == Values(words);
  }

  /** Where the tokenizer stands at the end of a line. */
  function AtEnd(line: string): State {
    ReadAll(START, line)
  }

  /**
   What a blank and one more bare word add: a word of its own
   exactly where the line so far ends outside quotes and escapes.
   */
  lemma AppendedWord(line: string, word: string)
    requires IsBare(word) && |line + " " + word| <= MAX_COMMAND_LINE_LENGTH
    ensures Words(line + " " + word) ==
            if Outside(AtEnd(line)) then Words(line) + [word]
            else AtEnd(line).words + [AtEnd(line).current + " " + word]
  {
    assert Bounded(line + " " + word) == line + " " + word && Bounded(line) == line;
    ReadThree(START, line, " ", word);
    BlankThenWord(ReadAll(START, line), word);
  }

  lemma BlankThenWord(s: State, word: string)
    requires IsBare(word)
    ensures var u := ReadAll(ReadAll(s, " "), word);
            u.current != "" && u.words + [u.current] ==
              if Outside(s) then Finished(s) + [word] else s.words + [s.current + " " + word]
  {
    OneReads(s, ' ');
    BareReads(Read(s, ' '), word);
    assert "" + word == word && [' '] == " ";
  }
}
