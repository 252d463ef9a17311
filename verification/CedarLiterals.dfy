/**
 The literals of policy conditions: the part of JSON that a token can hold.

 Strings, numbers, `true`, `false`, `null` and arrays of strings are read the way
 `JSON.parse` reads them.  A number keeps its text; `NumberValue` is what it stands for.
 */
module CedarLiterals {
  import opened Wrappers
  import Text

  datatype Literal =
    | StringLit(text: string)
    | NumberLit(digits: string)
    | BoolLit(value: bool)
    | NullLit
    | ListLit(items: seq<string>)

  /** A value read from the front of a text, and what follows it. */
  datatype Scan<T> = Scanned(value: T, rest: string) | Malformed

  // ---------- strings ----------

  function Unescape(c: char): Option<char> {
    match c
    case '\"' => Some('\"')
    case '\\' => Some('\\')
    case '/' => Some('/')
    case 'b' => Some(8 as char)
    case 'f' => Some(12 as char)
    case 'n' => Some('\n')
    case 'r' => Some('\r')
    case 't' => Some('\t')
    case _ => None
  }

  /** Reads a string body up to its closing quote. */
  function ScanBody(s: string): (r: Scan<string>)
    ensures r.Scanned? ==> |r.rest| < |s|
    decreases |s|
  {
    if s == "" || s[0] < ' ' then Malformed
    else if s[0] == '\"' then Scanned("", s[1..])
    else if s[0] == '\\' then
      if |s| == 1 || Unescape(s[1]).None? then Malformed
      else WithFront(Unescape(s[1]).value, ScanBody(s[2..]))
    else WithFront(s[0], ScanBody(s[1..]))
  }

  function WithFront(c: char, r: Scan<string>): Scan<string> {
    match r
    case Malformed => Malformed
    case Scanned(text, rest) => Scanned([c] + text, rest)
  }

  function ScanString(s: string): (r: Scan<string>)
    ensures r.Scanned? ==> |r.rest| < |s|
  {
    if s == "" || s[0] != '\"' then Malformed else ScanBody(s[1..])
  }

  function ParseString(token: string): Option<string> {
    match ScanString(token)
    case Malformed => None
    case Scanned(text, rest) => if rest == "" then Some(text) else None
  }

  // ---------- numbers ----------

  predicate IsDigit(c: char) { '0' <= c <= '9' }

  function DigitsLen(s: string): (n: nat)
    ensures n <= |s|
    ensures forall i | 0 <= i < n :: IsDigit(s[i])
  {
    if s == "" || !IsDigit(s[0]) then 0 else 1 + DigitsLen(s[1..])
  }

  function DropSign(s: string): string {
    if s != "" && s[0] == '-' then s[1..] else s
  }

  /** The length of the integer part: a single zero, or digits not starting with zero. */
  function IntegerLen(s: string): (n: nat)
    ensures n <= |s|
    ensures forall i | 0 <= i < n :: IsDigit(s[i])
  {
    if s != "" && s[0] == '0' then 1 else DigitsLen(s)
  }

  function FractionLen(s: string): (n: nat)
    ensures n <= |s|
  {
    if s != "" && s[0] == '.' && DigitsLen(s[1..]) > 0 then 1 + DigitsLen(s[1..]) else 0
  }

  predicate IsExponent(s: string) {
    || s == ""
    || (|s| >= 2 && (s[0] == 'e' || s[0] == 'E')
        && var d := if s[1] == '+' || s[1] == '-' then s[2..] else s[1..];
           d != "" && DigitsLen(d) == |d|)
  }

  /** What follows the integer part and the fraction. */
  function ExponentPart(s: string): string {
    var i := IntegerLen(s);
    s[i + FractionLen(s[i..])..]
  }

  predicate IsNumber(token: string) {
    var s := DropSign(token);
    IntegerLen(s) > 0 && IsExponent(ExponentPart(s))
  }

  function Natural(s: string): nat
    requires forall i | 0 <= i < |s| :: IsDigit(s[i])
  {
    if s == "" then 0
    else
      var last := s[|s| - 1];
      assert IsDigit(last);
      10 * Natural(s[..|s| - 1]) + (last as int - '0' as int)
  }

  function Pow10(n: nat): (p: real)
    ensures p >= 1.0
  {
    if n == 0 then 1.0 else 10.0 * Pow10(n - 1)
  }

  /** The fraction at the front of a text, or zero. */
  function FractionValue(s: string): real {
    var f := FractionLen(s);
    if f == 0 then 0.0
    else
      var digits := s[1..][..f - 1];
      (Natural(digits) as real) / Pow10(f - 1)
  }

  function Scaled(size: real, exponent: string): real
    requires IsExponent(exponent)
  {
    if exponent == "" then size
    else if exponent[1] == '-' then size / Pow10(Natural(exponent[2..]))
    else if exponent[1] == '+' then size * Pow10(Natural(exponent[2..]))
    else size * Pow10(Natural(exponent[1..]))
  }

  function IntegerPart(s: string): (digits: string)
    ensures forall i | 0 <= i < |digits| :: IsDigit(digits[i])
  {
    s[..IntegerLen(s)]
  }

  function Unsigned(s: string): real
    requires IsExponent(ExponentPart(s))
  {
    Scaled((Natural(IntegerPart(s)) as real) + FractionValue(s[IntegerLen(s)..]), ExponentPart(s))
  }

  /** The number a numeric token stands for. */
  function NumberValue(token: string): real
    requires IsNumber(token)
  {
    if token[0] == '-' then -Unsigned(DropSign(token)) else Unsigned(DropSign(token))
  }

  // ---------- arrays of strings ----------

  predicate IsJsonSpace(c: char) {
    c == ' ' || c == '\t' || c == '\n' || c == '\r'
  }

  function SkipSpace(s: string): (r: string)
    ensures |r| <= |s|
  {
    if s != "" && IsJsonSpace(s[0]) then SkipSpace(s[1..]) else s
  }

  /** Reads `"x", "y" ]` from the front. */
  function ScanItems(s: string): Scan<seq<string>>
    decreases |s|
  {
    match ScanString(SkipSpace(s))
    case Malformed => Malformed
    case Scanned(item, after) =>
      var rest := SkipSpace(after);
      if rest == "" then Malformed
      else if rest[0] == ']' then Scanned([item], rest[1..])
      else if rest[0] != ',' then Malformed
      else
        match ScanItems(rest[1..])
        case Malformed => Malformed
        case Scanned(items, end) => Scanned([item] + items, end)
  }

  function ParseList(token: string): Option<seq<string>> {
    if token == "" || token[0] != '[' then None
    else
      var body := SkipSpace(token[1..]);
      if body != "" && body[0] == ']' then (if body[1..] == "" then Some([]) else None)
      else
        match ScanItems(body)
        case Malformed => None
        case Scanned(items, rest) => if rest == "" then Some(items) else None
  }

  function ParseLiteral(token: string): Option<Literal> {
    if token == "true" then Some(BoolLit(true))
    else if token == "false" then Some(BoolLit(false))
    else if token == "null" then Some(NullLit)
    else if IsNumber(token) then Some(NumberLit(token))
    else if token != "" && token[0] == '[' then
      match ParseList(token)
      case None => None
      case Some(items) => Some(ListLit(items))
    else
      match ParseString(token)
      case None => None
      case Some(text) => Some(StringLit(text))
  }

  // ---------- writing literals ----------

  function EscapedChar(c: char): string {
    if c == '\"' || c == '\\' then ['\\', c] else [c]
  }

  function EscapeBody(s: string): string {
    if s == "" then "" else EscapedChar(s[0]) + EscapeBody(s[1..])
  }

  function Quote(s: string): string {
    "\"" + EscapeBody(s) + "\""
  }

  function QuoteItems(items: seq<string>): string
    requires items != []
  {
    if |items| == 1 then Quote(items[0]) else Quote(items[0]) + "," + QuoteItems(items[1..])
  }

  function QuoteList(items: seq<string>): string {
    if items == [] then "[]" else "[" + QuoteItems(items) + "]"
  }

  function WriteLiteral(v: Literal): string {
    match v
    case StringLit(text) => Quote(text)
    case NumberLit(digits) => digits
    case BoolLit(b) => if b then "true" else "false"
    case NullLit => "null"
    case ListLit(items) => QuoteList(items)
  }

  /** No control characters: they would need the other escapes of JSON. */
  predicate Printable(s: string) {
    forall i | 0 <= i < |s| :: s[i] >= ' '
  }

  // ---------- reading back what was written ----------

  lemma EscapedFront(c: char, tail: string)
    requires c == '\"' || c == '\\'
    ensures ScanBody(['\\', c] + tail) == WithFront(c, ScanBody(tail))
  {
    assert (['\\', c] + tail)[2..] == tail;
  }

  lemma PlainFront(c: char, tail: string)
    requires c >= ' ' && c != '\"' && c != '\\'
    ensures ScanBody([c] + tail) == WithFront(c, ScanBody(tail))
  {
    assert ([c] + tail)[1..] == tail;
  }

  lemma {:induction false} BodyReadBack(s: string, rest: string)
    requires Printable(s)
    ensures ScanBody(EscapeBody(s) + "\"" + rest) == Scanned(s, rest)
    decreases |s|
  {
    if s == "" {
      assert EscapeBody(s) + "\"" + rest == "\"" + rest && ("\"" + rest)[1..] == rest;
    } else {
      BodyReadBack(s[1..], rest);
      var tail := EscapeBody(s[1..]) + "\"" + rest;
      assert s == [s[0]] + s[1..];
      Text.AssociateFour(EscapedChar(s[0]), EscapeBody(s[1..]), "\"", rest);
      if s[0] == '\"' || s[0] == '\\' {
        EscapedFront(s[0], tail);
      } else {
        PlainFront(s[0], tail);
      }
    }
  }

  lemma StringReadBack(s: string, rest: string)
    requires Printable(s)
    ensures ScanString(Quote(s) + rest) == Scanned(s, rest)
  {
    BodyReadBack(s, rest);
    assert (Quote(s) + rest)[1..] == EscapeBody(s) + "\"" + rest;
  }

  lemma {:induction false} ItemsReadBack(items: seq<string>)
    requires items != [] && forall i | 0 <= i < |items| :: Printable(items[i])
    ensures ScanItems(QuoteItems(items) + "]") == Scanned(items, "")
    decreases |items|
  {
    if |items| == 1 {
      StringReadBack(items[0], "]");
      assert items == [items[0]];
      LastItem(Quote(items[0]) + "]", items[0], "]");
    } else {
      var more := QuoteItems(items[1..]) + "]";
      ItemsReadBack(items[1..]);
      StringReadBack(items[0], "," + more);
      assert items == [items[0]] + items[1..];
      CommaItem(Quote(items[0]) + ("," + more), items[0], more);
      ItemsFront(items);
    }
  }

  lemma ItemsFront(items: seq<string>)
    requires |items| > 1
    ensures QuoteItems(items) + "]" == Quote(items[0]) + ("," + (QuoteItems(items[1..]) + "]"))
  {
    var a, b := Quote(items[0]), QuoteItems(items[1..]);
    Text.AssociateFour(a, ",", b, "]");
    assert "," + b + "]" == "," + (b + "]");
  }

  lemma NoSpaceInFront(s: string)
    requires s != "" && !IsJsonSpace(s[0])
    ensures SkipSpace(s) == s
  {
  }

  lemma LastItem(s: string, item: string, after: string)
    requires s != "" && s[0] == '\"' && ScanString(s) == Scanned(item, after) && after != "" && after[0] == ']'
    ensures ScanItems(s) == Scanned([item], after[1..])
  {
    NoSpaceInFront(s);
    NoSpaceInFront(after);
  }

  lemma CommaItem(s: string, item: string, more: string)
    requires s != "" && s[0] == '\"' && ScanString(s) == Scanned(item, "," + more) && ScanItems(more).Scanned?
    ensures ScanItems(s) == Scanned([item] + ScanItems(more).value, ScanItems(more).rest)
  {
    NoSpaceInFront(s);
    NoSpaceInFront("," + more);
    assert ("," + more)[1..] == more;
  }

  lemma ListReadBack(items: seq<string>)
    requires forall i | 0 <= i < |items| :: Printable(items[i])
    ensures ParseList(QuoteList(items)) == Some(items)
  {
    var s := QuoteList(items);
    if items == [] {
      assert s[1..] == "]";
    } else {
      ItemsReadBack(items);
      assert s[1..] == QuoteItems(items) + "]";
    }
  }

  ghost predicate WritableLiteral(v: Literal) {
    match v
    case StringLit(text) => Printable(text)
    case NumberLit(digits) => IsNumber(digits)
    case BoolLit(_) => true
    case NullLit => true
    case ListLit(items) => forall i | 0 <= i < |items| :: Printable(items[i])
  }

  lemma LiteralReadBack(v: Literal)
    requires WritableLiteral(v)
    ensures ParseLiteral(WriteLiteral(v)) == Some(v)
  {
    match v
    case StringLit(text) =>
      StringReadBack(text, "");
      assert Quote(text) + "" == Quote(text);
    case NumberLit(digits) =>
    case BoolLit(_) =>
    case NullLit =>
    case ListLit(items) => ListReadBack(items);
  }
}
