/** The turbo-gherkin tokenizer table: the recognisers behind its rules and
    one step of the rule engine over a state stack. A step looks at the
    rest of the line from the current position, tries the rules of the
    state on top of the stack in order (a rule whose pattern starts with
    `^` only at the start of the line), and yields a token type, the length
    it covers and the new stack; when no rule matches, one character
    becomes a `source` token. */
module GherkinLexer {

  import opened Wrappers
  import opened Text

  // ---------------------------------------------------------------------
  // Character classes

  /** JavaScript's `\s`. */
  predicate IsSpace(c: char) {
    || c == ' ' || c == '\t' || c == '\n' || c == '\U{000B}' || c == '\U{000C}' || c == '\r'
    || c == '\U{00A0}' || c == '\U{1680}' || '\U{2000}' <= c <= '\U{200A}'
    || c == '\U{2028}' || c == '\U{2029}' || c == '\U{202F}' || c == '\U{205F}'
    || c == '\U{3000}' || c == '\U{FEFF}'
  }

  /** The characters `.` does not match. */
  predicate IsTerminator(c: char) {
    c == '\n' || c == '\r' || c == '\U{2028}' || c == '\U{2029}'
  }

  /** The letter class `[A-zА-я]`: it takes in ``[\]^_` `` between the Latin
      capitals and small letters, and leaves out ё and Ё. */
  predicate IsLetter(c: char) {
    'A' <= c <= 'z' || 'А' <= c <= 'я'
  }

  predicate IsDigit(c: char) {
    '0' <= c <= '9'
  }

  predicate IsHex(c: char) {
    IsDigit(c) || 'a' <= c <= 'f' || 'A' <= c <= 'F'
  }

  /** The character classes whose runs the rules consume. */
  datatype Class = Space | White | Letter | Digit | Hex | Dot | Body(close: char)

  predicate In(c: char, cls: Class) {
    match cls
    case Space => IsSpace(c)
    case White => c == ' ' || c == '\t' || c == '\r' || c == '\n'
    case Letter => IsLetter(c)
    case Digit => IsDigit(c)
    case Hex => IsHex(c)
    case Dot => !IsTerminator(c)
    case Body(close) => c != '\\' && c != close
  }

  /** The length of the longest prefix of `s` inside a class. */
  function Run(s: string, cls: Class): (n: nat)
    ensures n <= |s|
    ensures forall i | 0 <= i < n :: In(s[i], cls)
    ensures n < |s| ==> !In(s[n], cls)
  {
    if s == [] || !In(s[0], cls) then 0 else 1 + Run(s[1..], cls)
  }

  /** `.*$`: the rest holds no line terminator, so it matches to the end. */
  predicate ToEnd(s: string) {
    Run(s, Dot) == |s|
  }

  // ---------------------------------------------------------------------
  // Recognisers

  /** `^\s*([A-zА-я]+)(?:\s*\:)`: the length matched and the letter run. */
  function Heading(s: string): (r: Option<(nat, string)>)
    ensures r.Some? ==> 2 <= r.value.0 <= |s| && s[r.value.0 - 1] == ':'
  {
    var k := Run(s, Space);
    var w := Run(s[k..], Letter);
    var m := Run(s[k + w..], Space);
    if w > 0 && k + w + m < |s| && s[k + w + m] == ':' then Some((k + w + m + 1, s[k..k + w])) else None
  }

  /** `\s*([A-zА-я]+)`: the length matched and the letter run. */
  function LeadingWord(s: string): (r: Option<(nat, string)>)
    ensures r.Some? ==> 1 <= r.value.0 <= |s| && |r.value.1| >= 1
  {
    var k := Run(s, Space);
    var w := Run(s[k..], Letter);
    if w > 0 then Some((k + w, s[k..k + w])) else None
  }

  /** `^\s*\*.*$`: a line whose first non-space character is `*`. */
  predicate StrongLine(s: string) {
    var k := Run(s, Space);
    k < |s| && s[k] == '*' && ToEnd(s[k + 1..])
  }

  /** `^\s*\|`: the length up to the first `|` of a table row. */
  function TableStart(s: string): (r: Option<nat>)
    ensures r.Some? ==> 1 <= r.value <= |s|
  {
    var k := Run(s, Space);
    if k < |s| && s[k] == '|' then Some(k + 1) else None
  }

  /** `(^#.*$)` and `(^\/\/.*$)`: a comment to the end of the line, from
      wherever the rule is tried. */
  predicate CommentToEnd(s: string) {
    (|s| >= 1 && s[0] == '#' && ToEnd(s[1..])) || (|s| >= 2 && s[..2] == "//" && ToEnd(s[2..]))
  }

  /** Where the parts of a number end, as the number rule's pattern
      `-?(\d*\.)?\d+([eE][+-]?\d+)?[jJ]?[lL]?` cuts the text: the sign, the
      digits and point before the digits, the digits, the exponent, `j`
      and `l`. The regular-expression engine takes each optional part
      whenever it fits, and the point only when digits follow it. */
  datatype Cuts = Cuts(sign: nat, digitsFrom: nat, mantissa: nat, exponent: nat, imaginary: nat, end: nat)

  function NumberCuts(s: string): (c: Cuts)
    ensures c.sign <= c.digitsFrom <= c.mantissa <= c.exponent <= c.imaginary <= c.end <= |s|
  {
    Cuts(SignCut(s), DigitsCut(s), MantissaCut(s), ExponentCut(s), ImaginaryCut(s), EndCut(s))
  }

  /** `-?`. */
  function SignCut(s: string): (a: nat)
    ensures a <= |s|
  {
    if |s| > 0 && s[0] == '-' then 1 else 0
  }

  function DigitsCut(s: string): (from: nat)
    ensures SignCut(s) <= from <= |s|
  {
    AfterPoint(s, SignCut(s))
  }

  /** `\d+`. */
  function MantissaCut(s: string): (m: nat)
    ensures DigitsCut(s) <= m <= |s|
  {
    DigitsCut(s) + Run(s[DigitsCut(s)..], Digit)
  }

  function ExponentCut(s: string): (e: nat)
    ensures MantissaCut(s) <= e <= |s|
  {
    MantissaCut(s) + ExponentLen(s[MantissaCut(s)..])
  }

  function ImaginaryCut(s: string): (j: nat)
    ensures ExponentCut(s) <= j <= |s|
  {
    Suffix(s, ExponentCut(s), 'j', 'J')
  }

  function EndCut(s: string): (k: nat)
    ensures ImaginaryCut(s) <= k <= |s|
  {
    Suffix(s, ImaginaryCut(s), 'l', 'L')
  }

  /** `(\d*\.)?` from `a`: past the point when digits follow it, else `a`. */
  function AfterPoint(s: string, a: nat): (from: nat)
    requires a <= |s|
    ensures a <= from <= |s|
    ensures from > a ==> s[from - 1] == '.' && AllDigits(s[a..from - 1])
  {
    var d := Run(s[a..], Digit);
    if a + d < |s| && s[a + d] == '.' && Run(s[a + d + 1..], Digit) > 0 then
      assert forall i | 0 <= i < d :: s[a..a + d][i] == s[a..][i];
      a + d + 1
    else a
  }

  /** An optional one-letter suffix, in either case, at `i`. */
  function Suffix(s: string, i: nat, lower: char, upper: char): (k: nat)
    requires i <= |s|
    ensures k == i || (k == i + 1 <= |s| && (s[i] == lower || s[i] == upper))
  {
    if i < |s| && (s[i] == lower || s[i] == upper) then i + 1 else i
  }

  /** The sign and the digits and point before the digits. */
  lemma CutsHead(s: string)
    ensures var c := NumberCuts(s);
      && c.sign <= 1 && (c.sign == 1 <==> |s| > 0 && s[0] == '-')
      && (c.digitsFrom > c.sign ==> s[c.digitsFrom - 1] == '.' && AllDigits(s[c.sign..c.digitsFrom - 1]))
      && AllDigits(s[c.digitsFrom..c.mantissa])
  {
    var c := NumberCuts(s);
    var from := c.digitsFrom;
    assert forall i | 0 <= i < c.mantissa - from :: s[from..c.mantissa][i] == s[from..][i];
  }

  /** The exponent. */
  lemma CutsExponent(s: string)
    ensures var c := NumberCuts(s);
      c.exponent == c.mantissa || IsExponent(s[c.mantissa..c.exponent])
  {
    var c := NumberCuts(s);
    ExponentAt(s, c.mantissa, c.exponent);
  }

  lemma ExponentAt(s: string, m: nat, e: nat)
    requires m <= |s| && e == m + ExponentLen(s[m..])
    ensures e == m || IsExponent(s[m..e])
  {
    var t := s[m..];
    ExponentSound(t);
    assert t[..ExponentLen(t)] == s[m..e];
  }

  /** The number rule's match: some digits must follow the sign and point. */
  function NumberLen(s: string): (r: Option<nat>)
    ensures r.Some? ==> 1 <= r.value <= |s|
  {
    var c := NumberCuts(s);
    if c.mantissa > c.digitsFrom then Some(c.end) else None
  }

  /** `([eE][+-]?\d+)?`: the exponent's length, 0 when it does not fit. */
  function ExponentLen(s: string): (n: nat)
    ensures n <= |s|
  {
    if |s| == 0 || (s[0] != 'e' && s[0] != 'E') then 0
    else
      var b := if |s| > 1 && (s[1] == '+' || s[1] == '-') then 2 else 1;
      var d := Run(s[b..], Digit);
      if d > 0 then b + d else 0
  }

  /** The body of `"([^"\\]|\\.)*$` after its opening quote: characters
      other than the quote and the backslash, or a backslash and any
      character but a line terminator, up to the end of the line. */
  predicate OpenToEnd(s: string, quote: char) {
    if s == [] then true
    else if s[0] == '\\' then |s| >= 2 && !IsTerminator(s[1]) && OpenToEnd(s[2..], quote)
    else s[0] != quote && OpenToEnd(s[1..], quote)
  }

  /** A quote with no unescaped closing quote before the end of the line. */
  predicate Unterminated(s: string, quote: char) {
    |s| >= 1 && s[0] == quote && OpenToEnd(s[1..], quote)
  }

  /** The simple escapes `[abfnrtv\\"']`. */
  predicate SimpleEscape(c: char) {
    c in "abfnrtv\\\"'"
  }

  /** The escapes pattern as line 27 spells it, matched case-sensitively:
      a backslash and a simple escape, `x` and one to four hex digits, `u`
      and four, or `U` and eight. */
  function EscapeLen(s: string): (r: Option<nat>)
    ensures r.Some? ==> 2 <= r.value <= |s|
  {
    if |s| < 2 || s[0] != '\\' then None
    else if SimpleEscape(s[1]) then Some(2)
    else if s[1] == 'x' && Run(s[2..], Hex) > 0 then Some(2 + (if Run(s[2..], Hex) < 4 then Run(s[2..], Hex) else 4))
    else if s[1] == 'u' && |s| >= 6 && Run(s[2..], Hex) >= 4 then Some(6)
    else if s[1] == 'U' && |s| >= 10 && Run(s[2..], Hex) >= 8 then Some(10)
    else None
  }

  /** The same pattern under the table's `ignoreCase`: every letter in it
      matches either case, so `\A`, `\N`, `\X` and the like are accepted,
      and `u{4}` is tried on `U` too; whenever eight hex digits follow, four
      do, so the `U{8}` alternative is never reached and drops out. */
  function EscapeLenIgnoringCase(s: string): (r: Option<nat>)
    ensures r.Some? ==> 2 <= r.value <= |s|
  {
    if |s| < 2 || s[0] != '\\' then None
    else if SimpleEscape(LowerChar(s[1])) then Some(2)
    else if (s[1] == 'x' || s[1] == 'X') && Run(s[2..], Hex) > 0 then Some(2 + (if Run(s[2..], Hex) < 4 then Run(s[2..], Hex) else 4))
    else if (s[1] == 'u' || s[1] == 'U') && |s| >= 6 && Run(s[2..], Hex) >= 4 then Some(6)
    else None
  }

  /** A well-formed escape, spelled out: what the escapes pattern describes. */
  predicate IsEscape(t: string) {
    && |t| >= 2 && t[0] == '\\'
    && var h := t[2..];
    || (|t| == 2 && SimpleEscape(t[1]))
    || (t[1] == 'x' && 1 <= |h| <= 4 && AllHex(h))
    || (t[1] == 'u' && |h| == 4 && AllHex(h))
    || (t[1] == 'U' && |h| == 8 && AllHex(h))
  }

  // ---------------------------------------------------------------------
  // One step of the rule engine

  datatype State = Root | Operator | Params | StringDouble | StringSingle | StringAngle

  /** The result of one step: the token type, the characters it covers and the new stack. */
  datatype Outcome = Outcome(token: string, length: nat, stack: seq<State>)

  /** The keyword list: the provider's single words and `if`. */
  function Keywords(singleWords: seq<string>): (ks: seq<string>)
    ensures |ks| == |singleWords| + 1 && ks[|singleWords|] == "if"
  {
    singleWords + ["if"]
  }

  /** The `$1@keywords` test under `ignoreCase`: membership after lowering both sides. */
  predicate IsKeyword(keywords: seq<string>, word: string) {
    exists i | 0 <= i < |keywords| :: Lower(keywords[i]) == Lower(word)
  }

  function Push(stack: seq<State>, s: State): seq<State> {
    stack + [s]
  }

  function Pop(stack: seq<State>): seq<State>
    requires |stack| >= 1
  {
    stack[..|stack| - 1]
  }

  /** No rule matched: one character (none at the end of the line) of the default token. */
  function Default(line: string, pos: nat, stack: seq<State>): Outcome
    requires pos <= |line|
  {
    Outcome("source", if pos < |line| then 1 else 0, stack)
  }

  /** The `common` rules, in order; `atStart` enables the rules anchored
      at the start of the line. */
  function Common(s: string, atStart: bool, stack: seq<State>): (r: Option<Outcome>)
    ensures r.Some? ==> 1 <= r.value.length <= |s|
  {
    if |s| >= 1 && s[0] == '@' then Some(Outcome("annotation", 1 + Run(s[1..], Dot), stack))
    else if atStart && StrongLine(s) then Some(Outcome("strong", |s|, stack))
    else if atStart && TableStart(s).Some? then Some(Outcome("operator", TableStart(s).value, Push(stack, Params)))
    else if Run(s, White) > 0 then Some(Outcome("white", Run(s, White), stack))
    else if CommentToEnd(s) then Some(Outcome("comment", |s|, stack))
    else if NumberLen(s).Some? then Some(Outcome("number", NumberLen(s).value, stack))
    else if Unterminated(s, '"') || Unterminated(s, '\'') then Some(Outcome("string.invalid", |s|, stack))
    else if |s| >= 1 && s[0] == '"' then Some(Outcome("string", 1, Push(stack, StringDouble)))
    else if |s| >= 1 && s[0] == '\'' then Some(Outcome("string", 1, Push(stack, StringSingle)))
    else if |s| >= 1 && s[0] == '<' then Some(Outcome("string", 1, Push(stack, StringAngle)))
    else None
  }

  /** `root`: the section rule, the keyword rule, the common rules, then the rest of the line as `emphasis`. */
  function RootStep(keywords: seq<string>, stack: seq<State>, line: string, pos: nat): (o: Outcome)
    requires pos <= |line| && |stack| >= 1
    ensures pos + o.length <= |line|
  {
    var s := line[pos..];
    if pos == 0 && Heading(s).Some? then
      Outcome(if IsKeyword(keywords, Heading(s).value.1) then "metatag.php" else "identifier",
              Heading(s).value.0, Pop(stack) + [Root])
    else if pos == 0 && LeadingWord(s).Some? then
      if IsKeyword(keywords, LeadingWord(s).value.1) then Outcome("keyword", LeadingWord(s).value.0, Push(stack, Operator))
      else Outcome("emphasis", LeadingWord(s).value.0, stack)
    else if Common(s, pos == 0, stack).Some? then Common(s, pos == 0, stack).value
    else if ToEnd(s) then Outcome("emphasis", |s|, stack)
    else Default(line, pos, stack)
  }

  /** `operator` and `params`: pop at the start of a line; otherwise (for
      `operator`) a word is an identifier, then the common rules. */
  function ModeStep(mode: State, stack: seq<State>, line: string, pos: nat): (o: Outcome)
    requires pos <= |line| && |stack| >= 1
    ensures pos + o.length <= |line|
  {
    var s := line[pos..];
    if pos == 0 then Outcome("white", 0, Pop(stack))
    else if mode == Operator && LeadingWord(s).Some? then Outcome("identifier", LeadingWord(s).value.0, stack)
    else if Common(s, false, stack).Some? then Common(s, false, stack).value
    else Default(line, pos, stack)
  }

  /** The three string states, closed by `close`. */
  function StringStep(close: char, stack: seq<State>, line: string, pos: nat): (o: Outcome)
    requires pos <= |line| && |stack| >= 1
    ensures pos + o.length <= |line|
  {
    var s := line[pos..];
    if Run(s, Body(close)) > 0 then Outcome("string", Run(s, Body(close)), stack)
    else if EscapeLen(s).Some? then Outcome("string.escape", EscapeLen(s).value, stack)
    else if |s| >= 2 && s[0] == '\\' && !IsTerminator(s[1]) then Outcome("string.escape.invalid", 2, stack)
    else if |s| >= 1 && s[0] == close then Outcome("string", 1, Pop(stack))
    else Default(line, pos, stack)
  }

  /** The delimiter that closes a string state. */
  function Closer(st: State): char
    requires st == StringDouble || st == StringSingle || st == StringAngle
  {
    match st
    case StringDouble => '"'
    case StringSingle => '\''
    case StringAngle => '>'
  }

  /** One step from position `pos` of `line` with `stack` on entry. */
  function Step(singleWords: seq<string>, stack: seq<State>, line: string, pos: nat): (o: Outcome)
    requires pos <= |line| && |stack| >= 1
    ensures pos + o.length <= |line|
  {
    match stack[|stack| - 1]
    case Root => RootStep(Keywords(singleWords), stack, line, pos)
    case Operator => ModeStep(Operator, stack, line, pos)
    case Params => ModeStep(Params, stack, line, pos)
    case StringDouble => StringStep('"', stack, line, pos)
    case StringSingle => StringStep('\'', stack, line, pos)
    case StringAngle => StringStep('>', stack, line, pos)
  }

  // ---------------------------------------------------------------------
  // What the table promises

  predicate IsMode(st: State) {
    st == Operator || st == Params
  }

  predicate IsString(st: State) {
    st == StringDouble || st == StringSingle || st == StringAngle
  }

  /** The stacks the table can build: `root` at the bottom, then at most one
      of `operator` and `params`, then at most one string state on top. */
  predicate Shape(stack: seq<State>) {
    || stack == [Root]
    || (|stack| == 2 && stack[0] == Root && (IsMode(stack[1]) || IsString(stack[1])))
    || (|stack| == 3 && stack[0] == Root && IsMode(stack[1]) && IsString(stack[2]))
  }

  /** The common rules only push `params` from the start of a line, and a string state otherwise. */
  lemma CommonPushes(s: string, atStart: bool, stack: seq<State>)
    requires Common(s, atStart, stack).Some?
    ensures var st := Common(s, atStart, stack).value.stack;
      || st == stack
      || (atStart && st == stack + [Params])
      || (|st| == |stack| + 1 && st[..|stack|] == stack && IsString(st[|stack|]))
  {
    if |s| >= 1 && s[0] == '@' {
    } else if atStart && StrongLine(s) {
    } else if atStart && TableStart(s).Some? {
    } else if Run(s, White) > 0 || CommentToEnd(s) || NumberLen(s).Some? || Unterminated(s, '"') || Unterminated(s, '\'') {
    } else {
      var st := if s[0] == '"' then StringDouble else if s[0] == '\'' then StringSingle else StringAngle;
      assert Common(s, atStart, stack).value.stack == stack + [st];
      assert (stack + [st])[..|stack|] == stack;
    }
  }

  /** Every step keeps the stack in shape, so no pop ever meets an empty stack. */
  lemma StepKeepsShape(singleWords: seq<string>, stack: seq<State>, line: string, pos: nat)
    requires pos <= |line| && Shape(stack)
    ensures Shape(Step(singleWords, stack, line, pos).stack)
  {
    match stack[|stack| - 1]
    case Root => RootKeepsShape(Keywords(singleWords), stack, line, pos);
    case Operator => ModeKeepsShape(Operator, stack, line, pos);
    case Params => ModeKeepsShape(Params, stack, line, pos);
    case StringDouble => StringKeepsShape('"', stack, line, pos);
    case StringSingle => StringKeepsShape('\'', stack, line, pos);
    case StringAngle => StringKeepsShape('>', stack, line, pos);
  }

  lemma RootKeepsShape(keywords: seq<string>, stack: seq<State>, line: string, pos: nat)
    requires pos <= |line| && Shape(stack) && stack[|stack| - 1] == Root
    ensures Shape(RootStep(keywords, stack, line, pos).stack)
  {
    assert stack == [Root];
    var s := line[pos..];
    if pos == 0 && Heading(s).Some? {
      assert Pop(stack) + [Root] == [Root];
    } else if pos == 0 && LeadingWord(s).Some? {
    } else if Common(s, pos == 0, stack).Some? {
      CommonPushes(s, pos == 0, stack);
    }
  }

  lemma ModeKeepsShape(mode: State, stack: seq<State>, line: string, pos: nat)
    requires pos <= |line| && Shape(stack) && stack[|stack| - 1] == mode && IsMode(mode)
    ensures Shape(ModeStep(mode, stack, line, pos).stack)
  {
    assert stack == [Root, mode];
    var s := line[pos..];
    if pos == 0 {
      assert Pop(stack) == [Root];
    } else if mode == Operator && LeadingWord(s).Some? {
    } else if Common(s, false, stack).Some? {
      CommonPushes(s, false, stack);
    }
  }

  lemma StringKeepsShape(close: char, stack: seq<State>, line: string, pos: nat)
    requires pos <= |line| && Shape(stack) && IsString(stack[|stack| - 1])
    ensures Shape(StringStep(close, stack, line, pos).stack)
  {
    assert Pop(stack) == stack[..|stack| - 1];
  }

  /** Before the end of the line every step consumes a character or pops,
      so the engine's no-progress error cannot arise. */
  lemma StepProgresses(singleWords: seq<string>, stack: seq<State>, line: string, pos: nat)
    requires pos < |line| && |stack| >= 1
    ensures var o := Step(singleWords, stack, line, pos);
      o.length >= 1 || |o.stack| < |stack|
  {
    match stack[|stack| - 1]
    case Root => RootProgresses(Keywords(singleWords), stack, line, pos);
    case Operator => ModeProgresses(Operator, stack, line, pos);
    case Params => ModeProgresses(Params, stack, line, pos);
    case StringDouble => StringProgresses('"', stack, line, pos);
    case StringSingle => StringProgresses('\'', stack, line, pos);
    case StringAngle => StringProgresses('>', stack, line, pos);
  }

  lemma RootProgresses(keywords: seq<string>, stack: seq<State>, line: string, pos: nat)
    requires pos < |line| && |stack| >= 1
    ensures RootStep(keywords, stack, line, pos).length >= 1
  {
    var s := line[pos..];
    assert |s| >= 1;
    if !(pos == 0 && (Heading(s).Some? || LeadingWord(s).Some?)) && Common(s, pos == 0, stack).None? && ToEnd(s) {
      assert RootStep(keywords, stack, line, pos).length == |s|;
    }
  }

  lemma ModeProgresses(mode: State, stack: seq<State>, line: string, pos: nat)
    requires pos < |line| && |stack| >= 1
    ensures var o := ModeStep(mode, stack, line, pos); o.length >= 1 || |o.stack| < |stack|
  {
  }

  lemma StringProgresses(close: char, stack: seq<State>, line: string, pos: nat)
    requires pos < |line| && |stack| >= 1
    ensures var o := StringStep(close, stack, line, pos); o.length >= 1 || |o.stack| < |stack|
  {
  }

  /** `operator` and `params` end with their line: at the start of the next one they pop. */
  lemma ModePopsAtLineStart(singleWords: seq<string>, stack: seq<State>, line: string)
    requires |stack| >= 1 && IsMode(stack[|stack| - 1])
    ensures Step(singleWords, stack, line, 0) == Outcome("white", 0, stack[..|stack| - 1])
  {
  }

  /** At the start of a line in `root`, a letter run followed by `:` is a
      section heading: `metatag.php` when the run is a keyword, `identifier`
      otherwise, and the state stays `root`. */
  lemma HeadingClassified(singleWords: seq<string>, line: string)
    requires Heading(line).Some?
    ensures var o := Step(singleWords, [Root], line, 0);
      && o.length == Heading(line).value.0 && o.stack == [Root]
      && (o.token == "metatag.php" <==> IsKeyword(Keywords(singleWords), Heading(line).value.1))
      && (o.token == "identifier" <==> !IsKeyword(Keywords(singleWords), Heading(line).value.1))
  {
    assert line[0..] == line;
  }

  /** Otherwise a leading letter run is a `keyword` that pushes `operator`
      when it is a keyword, and `emphasis` with the stack unchanged when not. */
  lemma WordClassified(singleWords: seq<string>, line: string)
    requires Heading(line).None? && LeadingWord(line).Some?
    ensures var o := Step(singleWords, [Root], line, 0);
      && o.length == LeadingWord(line).value.0
      && (IsKeyword(Keywords(singleWords), LeadingWord(line).value.1) <==> o.token == "keyword" && o.stack == [Root, Operator])
      && (!IsKeyword(Keywords(singleWords), LeadingWord(line).value.1) <==> o.token == "emphasis" && o.stack == [Root])
  {
    assert line[0..] == line;
  }

  /** Keyword tests ignore case on both sides: `If`, `IF` and `if` are all keywords. */
  lemma IfIsKeyword(singleWords: seq<string>, word: string)
    requires Lower(word) == "if"
    ensures IsKeyword(Keywords(singleWords), word)
  {
    var ks := Keywords(singleWords);
    assert Lower(ks[|singleWords|]) == "if" by {
      assert Lower("if") == [LowerChar('i'), LowerChar('f')];
    }
  }

  /** A string state pops exactly on its own closing delimiter. */
  lemma StringPopsOnClose(singleWords: seq<string>, stack: seq<State>, line: string, pos: nat)
    requires pos <= |line| && |stack| >= 1 && IsString(stack[|stack| - 1])
    ensures var o := Step(singleWords, stack, line, pos);
      (o.stack == stack[..|stack| - 1] <==> pos < |line| && line[pos] == Closer(stack[|stack| - 1]))
  {
    var o := Step(singleWords, stack, line, pos);
    if o.stack == stack[..|stack| - 1] {
      assert |o.stack| != |stack|;
    }
  }

  /** Outside the strings, a double quote either opens `string_double` or,
      when no unescaped `"` closes it on its line, makes the rest of the
      line one `string.invalid` token. */
  lemma DoubleQuoteOpensOrFlags(singleWords: seq<string>, stack: seq<State>, line: string, pos: nat)
    requires pos < |line| && line[pos] == '"' && |stack| >= 1
    requires stack[|stack| - 1] == Root || (IsMode(stack[|stack| - 1]) && pos > 0)
    ensures Step(singleWords, stack, line, pos) ==
      if Unterminated(line[pos..], '"') then Outcome("string.invalid", |line| - pos, stack)
      else Outcome("string", 1, stack + [StringDouble])
  {
    QuoteOutsideStrings(singleWords, stack, line, pos);
  }

  /** An angle bracket has no unterminated rule: it always opens `string_angle`,
      which, lacking a `^` rule, carries over to the next line until `>`. */
  lemma AngleAlwaysOpens(singleWords: seq<string>, stack: seq<State>, line: string, pos: nat)
    requires pos < |line| && line[pos] == '<' && |stack| >= 1
    requires stack[|stack| - 1] == Root || (IsMode(stack[|stack| - 1]) && pos > 0)
    ensures Step(singleWords, stack, line, pos) == Outcome("string", 1, stack + [StringAngle])
  {
    QuoteOutsideStrings(singleWords, stack, line, pos);
  }

  /** Outside the strings, a step at a quote is the common rules' step. */
  lemma QuoteOutsideStrings(singleWords: seq<string>, stack: seq<State>, line: string, pos: nat)
    requires pos < |line| && (line[pos] == '"' || line[pos] == '\'' || line[pos] == '<') && |stack| >= 1
    requires stack[|stack| - 1] == Root || (IsMode(stack[|stack| - 1]) && pos > 0)
    ensures Step(singleWords, stack, line, pos) == QuoteStep(line[pos..], stack)
  {
    var s := line[pos..];
    assert s[0] == line[pos];
    QuoteCommon(s, pos == 0, stack);
    NoWordAtQuote(s);
    match stack[|stack| - 1]
    case Root =>
      assert RootStep(Keywords(singleWords), stack, line, pos) == Common(s, pos == 0, stack).value;
    case Operator =>
      assert ModeStep(Operator, stack, line, pos) == Common(s, false, stack).value;
    case Params =>
      assert ModeStep(Params, stack, line, pos) == Common(s, false, stack).value;
  }

  /** Outside the strings, where no heading and no leading word applies, a
      step is the step of the first common rule that matches. */
  lemma CommonOutsideStrings(singleWords: seq<string>, stack: seq<State>, line: string, pos: nat)
    requires pos <= |line| && |stack| >= 1
    requires stack[|stack| - 1] == Root || (IsMode(stack[|stack| - 1]) && pos > 0)
    requires Heading(line[pos..]).None? && LeadingWord(line[pos..]).None?
    requires Common(line[pos..], pos == 0, stack).Some?
    ensures Step(singleWords, stack, line, pos) == Common(line[pos..], pos == 0, stack).value
  {
    var s := line[pos..];
    match stack[|stack| - 1]
    case Root =>
      assert RootStep(Keywords(singleWords), stack, line, pos) == Common(s, pos == 0, stack).value;
    case Operator =>
      assert ModeStep(Operator, stack, line, pos) == Common(s, false, stack).value;
    case Params =>
      assert ModeStep(Params, stack, line, pos) == Common(s, false, stack).value;
  }

  /** Text whose first non-space character is no letter starts neither a
      heading nor a leading word. */
  lemma NoWord(s: string)
    requires Run(s, Space) < |s| && !IsLetter(s[Run(s, Space)])
    ensures Heading(s).None? && LeadingWord(s).None?
  {
    var k := Run(s, Space);
    assert s[k..][0] == s[k];
  }

  /** Outside the strings, `@` starts an `annotation` that runs to the end
      of the line (or to a line terminator inside it), anywhere on the line. */
  lemma AnnotationAnywhere(singleWords: seq<string>, stack: seq<State>, line: string, pos: nat)
    requires pos < |line| && line[pos] == '@' && |stack| >= 1
    requires stack[|stack| - 1] == Root || (IsMode(stack[|stack| - 1]) && pos > 0)
    ensures Step(singleWords, stack, line, pos) == Outcome("annotation", 1 + Run(line[pos + 1..], Dot), stack)
  {
    var s := line[pos..];
    assert s[0] == line[pos] && s[1..] == line[pos + 1..];
    assert Run(s, Space) == 0;
    NoWord(s);
    CommonOutsideStrings(singleWords, stack, line, pos);
  }

  /** In `root`, a line whose first non-space character is `*` is one
      `strong` token from its start to its end. */
  lemma StrongLineClassified(singleWords: seq<string>, stack: seq<State>, line: string)
    requires |stack| >= 1 && stack[|stack| - 1] == Root && StrongLine(line)
    ensures Step(singleWords, stack, line, 0) == Outcome("strong", |line|, stack)
  {
    assert line[0..] == line;
    NoWord(line);
    assert line[0] != '@';
    CommonOutsideStrings(singleWords, stack, line, 0);
  }

  /** In `root`, a line whose first non-space character is `|` opens a table
      row: the spaces and the `|` are one `operator` token, which pushes `params`. */
  lemma TableRowOpensParams(singleWords: seq<string>, stack: seq<State>, line: string)
    requires |stack| >= 1 && stack[|stack| - 1] == Root && TableStart(line).Some?
    ensures var o := Step(singleWords, stack, line, 0);
      && o == Outcome("operator", TableStart(line).value, stack + [Params])
      && line[o.length - 1] == '|'
  {
    assert line[0..] == line;
    NoWord(line);
    assert line[0] != '@' && !StrongLine(line);
    CommonOutsideStrings(singleWords, stack, line, 0);
  }

  /** Outside the strings, `#` or `//` makes the rest of the line one
      `comment` token wherever it stands: the engine tries each rule on the
      rest of the line, so the rules' `^` anchors at the current position. */
  lemma CommentAnywhere(singleWords: seq<string>, stack: seq<State>, line: string, pos: nat)
    requires pos < |line| && CommentToEnd(line[pos..]) && |stack| >= 1
    requires stack[|stack| - 1] == Root || (IsMode(stack[|stack| - 1]) && pos > 0)
    ensures Step(singleWords, stack, line, pos) == Outcome("comment", |line| - pos, stack)
  {
    var s := line[pos..];
    assert s[0] == '#' || s[0] == '/';
    assert Run(s, Space) == 0 && Run(s, White) == 0;
    NoWord(s);
    assert !StrongLine(s) && TableStart(s).None?;
    CommonOutsideStrings(singleWords, stack, line, pos);
  }

  /** In `root`, when no other rule matches, the rest of the line is one
      `emphasis` token; only text holding a line terminator falls through
      to the default token. */
  lemma RestIsEmphasis(singleWords: seq<string>, stack: seq<State>, line: string, pos: nat)
    requires pos <= |line| && |stack| >= 1 && stack[|stack| - 1] == Root
    requires pos == 0 ==> Heading(line).None? && LeadingWord(line).None?
    requires Common(line[pos..], pos == 0, stack).None?
    ensures Step(singleWords, stack, line, pos) ==
      if ToEnd(line[pos..]) then Outcome("emphasis", |line| - pos, stack) else Outcome("source", if pos < |line| then 1 else 0, stack)
  {
    assert pos == 0 ==> line[pos..] == line;
  }

  /** So a letter inside a `root` line, past the keyword at its start,
      begins an `emphasis` token that runs to the end of the line. */
  lemma MidLineWordIsEmphasis(singleWords: seq<string>, stack: seq<State>, line: string, pos: nat)
    requires 0 < pos < |line| && IsLetter(line[pos]) && ToEnd(line[pos..])
    requires |stack| >= 1 && stack[|stack| - 1] == Root
    ensures Step(singleWords, stack, line, pos) == Outcome("emphasis", |line| - pos, stack)
  {
    assert line[pos..][0] == line[pos];
    LetterStartsNoCommon(line[pos..], stack);
    RestIsEmphasis(singleWords, stack, line, pos);
  }

  /** No common rule starts on a letter away from the start of a line. */
  lemma LetterStartsNoCommon(s: string, stack: seq<State>)
    requires |s| >= 1 && IsLetter(s[0])
    ensures Common(s, false, stack).None?
  {
    assert Run(s, White) == 0;
    assert !CommentToEnd(s) by {
      if |s| >= 2 {
        assert s[..2][0] == s[0];
      }
    }
    assert !Unterminated(s, '"') && !Unterminated(s, '\'');
    NoNumber(s);
  }

  /** A quote starts neither a heading nor a leading word. */
  lemma NoWordAtQuote(s: string)
    requires |s| >= 1 && (s[0] == '"' || s[0] == '\'' || s[0] == '<')
    ensures Heading(s).None? && LeadingWord(s).None?
  {
    assert Run(s, Space) == 0;
    assert s[0..] == s;
    assert Run(s, Letter) == 0;
  }

  /** What the common rules make of a quote. */
  function QuoteStep(s: string, stack: seq<State>): Outcome
    requires |s| >= 1
  {
    if Unterminated(s, '"') || Unterminated(s, '\'') then Outcome("string.invalid", |s|, stack)
    else Outcome("string", 1, Push(stack, if s[0] == '"' then StringDouble else if s[0] == '\'' then StringSingle else StringAngle))
  }

  lemma QuoteCommon(s: string, atStart: bool, stack: seq<State>)
    requires |s| >= 1 && (s[0] == '"' || s[0] == '\'' || s[0] == '<')
    ensures Common(s, atStart, stack) == Some(QuoteStep(s, stack))
  {
    assert Run(s, White) == 0 && Run(s, Space) == 0;
    assert !StrongLine(s) && TableStart(s).None? && !CommentToEnd(s);
    NoNumber(s);
  }

  // ---------------------------------------------------------------------
  // Numbers, spelled out

  predicate AllDigits(t: string) {
    forall i | 0 <= i < |t| :: IsDigit(t[i])
  }

  predicate AllHex(t: string) {
    forall i | 0 <= i < |t| :: IsHex(t[i])
  }

  /** `[eE][+-]?\d+`. */
  predicate IsExponent(e: string) {
    && |e| >= 2 && (e[0] == 'e' || e[0] == 'E')
    && var r := if e[1] == '+' || e[1] == '-' then e[2..] else e[1..];
    |r| >= 1 && AllDigits(r)
  }

  /** A number literal by its parts: sign, digits before a point (when there
      is one), digits, exponent, `j` and `l` suffixes. */
  datatype Number = Number(negative: bool, whole: Option<string>, digits: string, exponent: string, imaginary: string, long: string)

  predicate WellFormed(n: Number) {
    && (n.whole.Some? ==> AllDigits(n.whole.value))
    && |n.digits| >= 1 && AllDigits(n.digits)
    && (n.exponent == "" || IsExponent(n.exponent))
    && (n.imaginary == "" || n.imaginary == "j" || n.imaginary == "J")
    && (n.long == "" || n.long == "l" || n.long == "L")
  }

  function Spell(n: Number): string {
    (if n.negative then "-" else "") + (if n.whole.Some? then n.whole.value + "." else "")
    + n.digits + n.exponent + n.imaginary + n.long
  }

  /** The parts of the number the number rule matches. */
  function ParseNumber(s: string): Number
    requires NumberLen(s).Some?
  {
    NumberAt(s, NumberCuts(s))
  }

  /** The parts of `s` between the cuts. */
  function NumberAt(s: string, c: Cuts): Number
    requires c.sign <= c.digitsFrom <= c.mantissa <= c.exponent <= c.imaginary <= c.end <= |s|
  {
    Number(c.sign == 1, if c.digitsFrom > c.sign then Some(s[c.sign..c.digitsFrom - 1]) else None,
           s[c.digitsFrom..c.mantissa], s[c.mantissa..c.exponent], s[c.exponent..c.imaginary], s[c.imaginary..c.end])
  }

  lemma ExponentSound(s: string)
    ensures ExponentLen(s) == 0 || IsExponent(s[..ExponentLen(s)])
  {
    var n := ExponentLen(s);
    if n > 0 {
      var e := s[..n];
      var b := if s[1] == '+' || s[1] == '-' then 2 else 1;
      assert e[b..] == s[b..n];
      assert s[b..n] == s[b..][..n - b];
    }
  }

  /** What the number rule matches is a well-formed number, spelled exactly. */
  lemma NumberSound(s: string)
    requires NumberLen(s).Some?
    ensures WellFormed(ParseNumber(s)) && Spell(ParseNumber(s)) == s[..NumberLen(s).value]
  {
    var c := NumberCuts(s);
    CutsHead(s);
    CutsExponent(s);
    CutsSuffixes(s);
    WellFormedAt(s, c);
    SpellAt(s, c);
  }

  /** The suffixes. */
  lemma CutsSuffixes(s: string)
    ensures var c := NumberCuts(s);
      && (c.imaginary == c.exponent || (c.imaginary == c.exponent + 1 && (s[c.exponent] == 'j' || s[c.exponent] == 'J')))
      && (c.end == c.imaginary || (c.end == c.imaginary + 1 && (s[c.imaginary] == 'l' || s[c.imaginary] == 'L')))
  {
  }

  /** Cuts that delimit a sign, digits with a point, digits, an exponent
      and the suffixes give back a well-formed number ... */
  lemma WellFormedAt(s: string, c: Cuts)
    requires c.sign <= c.digitsFrom < c.mantissa <= c.exponent <= c.imaginary <= c.end <= |s|
    requires c.digitsFrom > c.sign ==> AllDigits(s[c.sign..c.digitsFrom - 1])
    requires AllDigits(s[c.digitsFrom..c.mantissa])
    requires c.exponent == c.mantissa || IsExponent(s[c.mantissa..c.exponent])
    requires c.imaginary == c.exponent || (c.imaginary == c.exponent + 1 && (s[c.exponent] == 'j' || s[c.exponent] == 'J'))
    requires c.end == c.imaginary || (c.end == c.imaginary + 1 && (s[c.imaginary] == 'l' || s[c.imaginary] == 'L'))
    ensures WellFormed(NumberAt(s, c))
  {
    var p := NumberAt(s, c);
    assert p.imaginary == "" || p.imaginary == "j" || p.imaginary == "J" by {
      if c.imaginary > c.exponent {
        assert p.imaginary == [s[c.exponent]];
      }
    }
    assert p.long == "" || p.long == "l" || p.long == "L" by {
      if c.end > c.imaginary {
        assert p.long == [s[c.imaginary]];
      }
    }
  }

  /** ... spelled exactly as the text it was cut from. */
  lemma SpellAt(s: string, c: Cuts)
    requires c.sign <= c.digitsFrom <= c.mantissa <= c.exponent <= c.imaginary <= c.end <= |s|
    requires c.sign <= 1 && (c.sign == 1 <==> |s| > 0 && s[0] == '-')
    requires c.digitsFrom > c.sign ==> s[c.digitsFrom - 1] == '.'
    ensures Spell(NumberAt(s, c)) == s[..c.end]
  {
    var p := NumberAt(s, c);
    var sign := if p.negative then "-" else "";
    var head := if p.whole.Some? then p.whole.value + "." else "";
    assert sign == s[0..c.sign];
    assert head == s[c.sign..c.digitsFrom] by {
      if c.digitsFrom > c.sign {
        Cat(s, c.sign, c.digitsFrom - 1, c.digitsFrom);
      }
    }
    Cat(s, 0, c.sign, c.digitsFrom);
    Cat(s, 0, c.digitsFrom, c.mantissa);
    Cat(s, 0, c.mantissa, c.exponent);
    Cat(s, 0, c.exponent, c.imaginary);
    Cat(s, 0, c.imaginary, c.end);
    assert s[0..c.end] == s[..c.end];
  }

  /** A slice is the two slices on either side of a cut. */
  lemma Cat(s: string, i: nat, j: nat, k: nat)
    requires i <= j <= k <= |s|
    ensures s[i..k] == s[i..j] + s[j..k]
  {
  }

  /** Wherever a well-formed number starts the rest of the line, the number
      rule matches it, all of it and maybe more: each greedy part either
      stops where the spelled part stops or runs past the spelled number. */
  lemma NumberComplete(p: Number, s: string)
    requires WellFormed(p) && |Spell(p)| <= |s| && s[..|Spell(p)|] == Spell(p)
    ensures NumberLen(s).Some? && NumberLen(s).value >= |Spell(p)|
  {
    var a := if p.negative then 1 else 0;
    SpellHead(p);
    var t := Spell(p);
    assert s[0] == t[0] && s[a] == t[a];
    if !IsDigit(t[a]) {
      assert s[a + 1] == t[a + 1];
    }
    var c := NumberCuts(s);
    assert c.sign == a;
    DigitsAhead(s, a, c.digitsFrom);
    assert s[c.digitsFrom..][0] == s[c.digitsFrom];
    NumberReaches(p, s);
  }

  /** The cuts of the number rule reach the end of a spelled number. */
  lemma NumberReaches(p: Number, s: string)
    requires WellFormed(p) && |Spell(p)| <= |s| && s[..|Spell(p)|] == Spell(p)
    ensures NumberCuts(s).end >= |Spell(p)|
  {
    SpellSign(p, s);
    SpellLayout(p, s);
    SpellFollows(p, s);
    CutsReach(s, SignEnd(p), HeadEnd(p), DigitsEnd(p), ExponentEnd(p), ImaginaryEnd(p), |Spell(p)|,
              p.whole, p.exponent, p.imaginary, p.long);
  }

  /** Where the sign, the digits and point before the digits, the digits,
      the exponent and the `j` of a spelled number end. */
  function SignEnd(p: Number): nat {
    if p.negative then 1 else 0
  }

  function HeadEnd(p: Number): nat {
    SignEnd(p) + if p.whole.Some? then |p.whole.value| + 1 else 0
  }

  function DigitsEnd(p: Number): nat {
    HeadEnd(p) + |p.digits|
  }

  function ExponentEnd(p: Number): nat {
    DigitsEnd(p) + |p.exponent|
  }

  function ImaginaryEnd(p: Number): nat {
    ExponentEnd(p) + |p.imaginary|
  }

  /** The number rule reads the sign of a spelled number. */
  lemma SpellSign(p: Number, s: string)
    requires WellFormed(p) && |Spell(p)| <= |s| && s[..|Spell(p)|] == Spell(p)
    ensures SignCut(s) == SignEnd(p)
  {
    SpellHead(p);
    assert s[0] == Spell(p)[0];
  }

  /** The same, stage by stage, over the positions where the spelled parts end. */
  lemma CutsReach(s: string, a: nat, fp: nat, mp: nat, ep: nat, ip: nat, L: nat,
                  whole: Option<string>, exponent: string, imaginary: string, long: string)
    requires a <= fp < mp <= ep <= ip <= L <= |s| && SignCut(s) == a
    requires whole.Some? ==> fp == a + |whole.value| + 1 && AllDigits(whole.value) && s[a..fp] == whole.value + "."
    requires whole.None? ==> fp == a
    requires AllDigits(s[fp..mp]) && (mp < L ==> AfterDigits(s[mp]))
    requires s[mp..ep] == exponent && (exponent == "" || IsExponent(exponent)) && (ep < L ==> SuffixStart(s[ep]))
    requires s[ep..ip] == imaginary && (imaginary == "" || imaginary == "j" || imaginary == "J")
    requires ip < L ==> s[ip] == 'l' || s[ip] == 'L'
    requires L == ip + |long| && s[ip..L] == long && (long == "" || long == "l" || long == "L")
    ensures EndCut(s) >= L
  {
    DigitsCutReach(s, a, fp, mp, L, whole);
    if DigitsCut(s) < L {
      MantissaCutReach(s, fp, mp, L);
      if MantissaCut(s) < L {
        ExponentCutReach(s, mp, ep, L, exponent);
        if ExponentCut(s) < L {
          ImaginaryCutReach(s, ep, ip, L, imaginary);
          if ImaginaryCut(s) < L {
            EndCutReach(s, ip, L, long);
          }
        }
      }
    }
  }

  lemma DigitsCutReach(s: string, a: nat, fp: nat, mp: nat, L: nat, whole: Option<string>)
    requires a <= fp < mp <= L <= |s| && SignCut(s) == a
    requires whole.Some? ==> fp == a + |whole.value| + 1 && AllDigits(whole.value) && s[a..fp] == whole.value + "."
    requires whole.None? ==> fp == a
    requires AllDigits(s[fp..mp]) && (mp < L ==> AfterDigits(s[mp]))
    ensures DigitsCut(s) == fp || DigitsCut(s) >= L
  {
    PointStage(s, a, fp, mp, L, whole);
  }

  lemma MantissaCutReach(s: string, fp: nat, mp: nat, L: nat)
    requires fp < mp <= L <= |s| && DigitsCut(s) == fp
    requires AllDigits(s[fp..mp]) && (mp < L ==> AfterDigits(s[mp]))
    ensures MantissaCut(s) == mp || MantissaCut(s) >= L
  {
    DigitsStage(s, fp, mp, L);
  }

  lemma ExponentCutReach(s: string, mp: nat, ep: nat, L: nat, x: string)
    requires mp <= ep <= L <= |s| && MantissaCut(s) == mp && s[mp..ep] == x && (x == "" || IsExponent(x))
    requires ep < L ==> SuffixStart(s[ep])
    ensures ExponentCut(s) == ep || ExponentCut(s) >= L
  {
    ExponentStage(s, mp, ep, L, x);
  }

  lemma ImaginaryCutReach(s: string, ep: nat, ip: nat, L: nat, x: string)
    requires ep <= ip <= L <= |s| && ExponentCut(s) == ep && s[ep..ip] == x && (x == "" || x == "j" || x == "J")
    requires ip < L ==> s[ip] == 'l' || s[ip] == 'L'
    ensures ImaginaryCut(s) == ip || ImaginaryCut(s) >= L
  {
    ImaginaryStage(s, ep, ip, L, x);
  }

  lemma EndCutReach(s: string, ip: nat, L: nat, x: string)
    requires ip <= L <= |s| && ImaginaryCut(s) == ip && L == ip + |x| && s[ip..L] == x && (x == "" || x == "l" || x == "L")
    ensures EndCut(s) >= L
  {
    LongStage(s, ip, L, x);
  }

  /** Where the parts of a spelled number lie. */
  lemma SpellLayout(p: Number, s: string)
    requires WellFormed(p) && |Spell(p)| <= |s| && s[..|Spell(p)|] == Spell(p)
    ensures ImaginaryEnd(p) + |p.long| == |Spell(p)|
    ensures p.whole.Some? ==> s[SignEnd(p)..HeadEnd(p)] == p.whole.value + "."
    ensures AllDigits(s[HeadEnd(p)..DigitsEnd(p)])
    ensures s[DigitsEnd(p)..ExponentEnd(p)] == p.exponent
    ensures s[ExponentEnd(p)..ImaginaryEnd(p)] == p.imaginary
    ensures s[ImaginaryEnd(p)..|Spell(p)|] == p.long
  {
    SpellParts(p, s);
    LayoutHead(p, s);
    LayoutTail(p, s);
  }

  /** A spelled number is its six parts. */
  lemma SpellParts(p: Number, s: string)
    requires |Spell(p)| <= |s| && s[..|Spell(p)|] == Spell(p)
    ensures var sign := if p.negative then "-" else "";
      var head := if p.whole.Some? then p.whole.value + "." else "";
      && |sign| == SignEnd(p) && |sign| + |head| == HeadEnd(p)
      && ImaginaryEnd(p) + |p.long| == |Spell(p)|
  {
  }

  lemma LayoutHead(p: Number, s: string)
    requires WellFormed(p) && |Spell(p)| <= |s| && s[..|Spell(p)|] == Spell(p)
    ensures p.whole.Some? ==> s[SignEnd(p)..HeadEnd(p)] == p.whole.value + "."
    ensures AllDigits(s[HeadEnd(p)..DigitsEnd(p)])
  {
    var sign := if p.negative then "-" else "";
    var head := if p.whole.Some? then p.whole.value + "." else "";
    SpellParts(p, s);
    Regroup(sign, head, p.digits, p.exponent, p.imaginary, p.long);
    Piece(s, sign, head, p.digits + p.exponent + p.imaginary + p.long);
    Regroups(sign, head, p.digits, p.exponent, p.imaginary, p.long);
    Piece(s, sign + head, p.digits, p.exponent + p.imaginary + p.long);
  }

  lemma LayoutTail(p: Number, s: string)
    requires |Spell(p)| <= |s| && s[..|Spell(p)|] == Spell(p)
    ensures s[DigitsEnd(p)..ExponentEnd(p)] == p.exponent
    ensures s[ExponentEnd(p)..ImaginaryEnd(p)] == p.imaginary
    ensures s[ImaginaryEnd(p)..|Spell(p)|] == p.long
  {
    var sign := if p.negative then "-" else "";
    var head := if p.whole.Some? then p.whole.value + "." else "";
    var front := sign + head + p.digits;
    SpellParts(p, s);
    Regroups(sign, head, p.digits, p.exponent, p.imaginary, p.long);
    Piece(s, front, p.exponent, p.imaginary + p.long);
    Piece(s, front + p.exponent, p.imaginary, p.long);
    Piece(s, front + p.exponent + p.imaginary, p.long, []);
  }

  /** The middle part of a text that opens with three parts. */
  lemma Piece(s: string, front: string, x: string, back: string)
    requires |front + x + back| <= |s| && s[..|front + x + back|] == front + x + back
    ensures s[|front|..|front| + |x|] == x
  {
    var n := |front + x + back|;
    forall k | 0 <= k < |x|
      ensures s[|front| + k] == x[k]
    {
      assert s[|front| + k] == s[..n][|front| + k];
    }
  }

  /** What may follow the digits of a spelled number: an exponent or a suffix. */
  predicate AfterDigits(c: char) {
    c == 'e' || c == 'E' || SuffixStart(c)
  }

  predicate SuffixStart(c: char) {
    c == 'j' || c == 'J' || c == 'l' || c == 'L'
  }

  /** The character after each part of a spelled number, inside it, starts a later part. */
  lemma SpellFollows(p: Number, s: string)
    requires WellFormed(p) && |Spell(p)| <= |s| && s[..|Spell(p)|] == Spell(p)
    ensures DigitsEnd(p) < |Spell(p)| ==> AfterDigits(s[DigitsEnd(p)])
    ensures ExponentEnd(p) < |Spell(p)| ==> SuffixStart(s[ExponentEnd(p)])
    ensures ImaginaryEnd(p) < |Spell(p)| ==> s[ImaginaryEnd(p)] == 'l' || s[ImaginaryEnd(p)] == 'L'
  {
    var mp := DigitsEnd(p);
    var ep := ExponentEnd(p);
    var ip := ImaginaryEnd(p);
    SpellLayout(p, s);
    if |p.long| > 0 {
      assert s[ip] == s[ip..|Spell(p)|][0];
    }
    if |p.imaginary| > 0 {
      assert s[ep] == s[ep..ip][0];
    }
    if |p.exponent| > 0 {
      assert s[mp] == s[mp..ep][0];
    }
  }

  /** `(\d*\.)?` stops where the spelled digits start, or past the number. */
  lemma PointStage(s: string, a: nat, fp: nat, mp: nat, L: nat, whole: Option<string>)
    requires a <= fp < mp <= L <= |s|
    requires whole.Some? ==> fp == a + |whole.value| + 1 && AllDigits(whole.value) && s[a..fp] == whole.value + "."
    requires whole.None? ==> fp == a
    requires AllDigits(s[fp..mp]) && (mp < L ==> AfterDigits(s[mp]))
    ensures AfterPoint(s, a) == fp || AfterPoint(s, a) >= L
  {
    assert IsDigit(s[fp]) by { assert s[fp..mp][0] == s[fp]; }
    if whole.Some? {
      PointTaken(s, a, whole.value);
    } else {
      PointSkipped(s, a, mp, L);
    }
  }

  /** Spelled digits, a point and a digit: the point is taken. */
  lemma PointTaken(s: string, a: nat, w: string)
    requires a + |w| + 1 < |s| && s[a..a + |w| + 1] == w + "." && AllDigits(w)
    requires IsDigit(s[a + |w| + 1])
    ensures AfterPoint(s, a) == a + |w| + 1
  {
    var t := s[a..];
    assert t[..|w| + 1] == w + ".";
    assert t[..|w|] == (w + ".")[..|w|] == w;
    DigitsRunCovers(t, |w|);
    assert t[|w|] == (w + ".")[|w|];
    var d := Run(t, Digit);
    assert d == |w|;
    assert s[a + d + 1..][0] == s[a + |w| + 1];
  }

  /** Spelled digits with no point in them: the point is not taken, or is
      taken past the number. */
  lemma PointSkipped(s: string, a: nat, mp: nat, L: nat)
    requires a < mp <= L <= |s|
    requires AllDigits(s[a..mp]) && (mp < L ==> AfterDigits(s[mp]))
    ensures AfterPoint(s, a) == a || AfterPoint(s, a) >= L
  {
    var t := s[a..];
    assert t[..mp - a] == s[a..mp];
    DigitsRunCovers(t, mp - a);
    if mp < L {
      assert t[mp - a] == s[mp];
    }
  }

  /** `\d+` stops where the spelled digits stop, or past the number. */
  lemma DigitsStage(s: string, fp: nat, mp: nat, L: nat)
    requires fp < mp <= L <= |s|
    requires AllDigits(s[fp..mp]) && (mp < L ==> AfterDigits(s[mp]))
    ensures fp + Run(s[fp..], Digit) == mp || fp + Run(s[fp..], Digit) >= L
  {
    var r := Run(s[fp..], Digit);
    if fp + r > mp {
      assert s[fp..][mp - fp] == s[mp];
    }
  }

  /** The exponent stops where the spelled exponent stops, or past the number. */
  lemma ExponentStage(s: string, mp: nat, ep: nat, L: nat, x: string)
    requires mp <= ep <= L <= |s| && s[mp..ep] == x && (x == "" || IsExponent(x))
    requires ep < L ==> SuffixStart(s[ep])
    ensures mp + ExponentLen(s[mp..]) == ep || mp + ExponentLen(s[mp..]) >= L
  {
    var t := s[mp..];
    if x == "" {
      if ExponentLen(t) > 0 {
        assert t[0] == s[mp];
      }
    } else {
      assert t[..ep - mp] == x;
      if ep < L {
        assert t[ep - mp] == s[ep];
      }
      ExponentMatch(t, x, L - mp);
    }
  }

  /** On text that starts with a spelled exponent, the exponent rule takes
      exactly that exponent, or reaches `L`. */
  lemma ExponentMatch(t: string, x: string, L: nat)
    requires |x| <= L <= |t| && t[..|x|] == x && IsExponent(x)
    requires |x| < L ==> SuffixStart(t[|x|])
    ensures ExponentLen(t) == |x| || ExponentLen(t) >= L
  {
    assert t[0] == x[0] && t[1] == x[1];
    var b := if x[1] == '+' || x[1] == '-' then 2 else 1;
    var u := t[b..];
    assert u[..|x| - b] == x[b..];
    DigitsRunCovers(u, |x| - b);
    ExponentLenIs(t, b);
    assert |x| < L ==> u[|x| - b] == t[|x|];
  }

  /** The exponent rule's length once its sign position `b` is known. */
  lemma ExponentLenIs(t: string, b: nat)
    requires |t| >= 2 && (t[0] == 'e' || t[0] == 'E')
    requires b == if t[1] == '+' || t[1] == '-' then 2 else 1
    requires Run(t[b..], Digit) > 0
    ensures ExponentLen(t) == b + Run(t[b..], Digit)
  {
  }

  /** A run of digits is at least as long as any all-digit prefix. */
  lemma DigitsRunCovers(u: string, k: nat)
    requires k <= |u| && AllDigits(u[..k])
    ensures Run(u, Digit) >= k
  {
    assert forall i | 0 <= i < k :: u[..k][i] == u[i];
  }

  /** The `j` suffix is taken just when it is spelled, or past the number. */
  lemma ImaginaryStage(s: string, ep: nat, ip: nat, L: nat, x: string)
    requires ep <= ip <= L <= |s| && s[ep..ip] == x && (x == "" || x == "j" || x == "J")
    requires ip < L ==> s[ip] == 'l' || s[ip] == 'L'
    ensures Suffix(s, ep, 'j', 'J') == ip || Suffix(s, ep, 'j', 'J') >= L
  {
    if x != "" {
      assert s[ep] == x[0];
    }
  }

  /** The `l` suffix is taken when it is spelled. */
  lemma LongStage(s: string, ip: nat, L: nat, x: string)
    requires ip <= L <= |s| && L == ip + |x| && s[ip..L] == x && (x == "" || x == "l" || x == "L")
    ensures Suffix(s, ip, 'l', 'L') >= L
  {
    if x != "" {
      assert s[ip] == x[0];
    }
  }

  lemma Regroup(a: string, b: string, c: string, d: string, e: string, f: string)
    ensures a + b + c + d + e + f == a + b + (c + d + e + f)
  {
  }

  lemma Regroups(a: string, b: string, c: string, d: string, e: string, f: string)
    ensures a + b + c + d + e + f == (a + b) + c + (d + e + f)
    ensures a + b + c + d + e + f == (a + b + c) + d + (e + f)
    ensures a + b + c + d + e + f == (a + b + c + d + e) + f + []
  {
  }

  /** A well-formed number opens with its sign, then a digit or a point and a digit. */
  lemma SpellHead(p: Number)
    requires WellFormed(p)
    ensures var a := if p.negative then 1 else 0; var t := Spell(p);
      && |t| > a
      && (t[0] == '-' <==> p.negative)
      && (IsDigit(t[a]) || (|t| > a + 1 && t[a] == '.' && IsDigit(t[a + 1])))
  {
    var sign := if p.negative then "-" else "";
    var head := if p.whole.Some? then p.whole.value + "." else "";
    var rest := p.digits + p.exponent + p.imaginary + p.long;
    Regroup(sign, head, p.digits, p.exponent, p.imaginary, p.long);
    var a := |sign|;
    assert rest[0] == p.digits[0];
    if p.whole.None? {
      assert Spell(p)[a] == p.digits[0];
    } else if |p.whole.value| > 0 {
      assert Spell(p)[a] == head[0] == p.whole.value[0];
      assert IsDigit(p.whole.value[0]);
    } else {
      assert Spell(p)[a] == '.' && Spell(p)[a + 1] == p.digits[0];
    }
  }

  /** Where a digit, or a point and a digit, comes next, the digits of
      the number start on a digit. */
  lemma DigitsAhead(s: string, a: nat, from: nat)
    requires a < |s| && (IsDigit(s[a]) || (a + 1 < |s| && s[a] == '.' && IsDigit(s[a + 1])))
    requires from == AfterPoint(s, a)
    ensures from < |s| && IsDigit(s[from])
  {
    var t := s[a..];
    assert t[0] == s[a];
    if s[a] == '.' {
      assert Run(t, Digit) == 0;
      assert s[a + 1..][0] == s[a + 1];
    }
  }

  /** Text that starts with none of `-`, `.` and a digit holds no number. */
  lemma NoNumber(s: string)
    requires |s| > 0 && s[0] != '-' && s[0] != '.' && !IsDigit(s[0])
    ensures NumberLen(s).None?
  {
    var c := NumberCuts(s);
    assert Run(s, Digit) == 0;
    assert c.digitsFrom == 0;
  }

  // ---------------------------------------------------------------------
  // Escapes

  /** The case-sensitive escape rule matches a well-formed escape ... */
  lemma EscapeSound(s: string)
    requires EscapeLen(s).Some?
    ensures IsEscape(s[..EscapeLen(s).value])
  {
    var n := EscapeLen(s).value;
    assert s[..n][2..] == s[2..n];
  }

  /** ... and, wherever a well-formed escape starts, it matches at least all of it. */
  lemma EscapeComplete(s: string, m: nat)
    requires m <= |s| && IsEscape(s[..m])
    ensures EscapeLen(s).Some? && EscapeLen(s).value >= m
  {
    var h := s[..m][2..];
    assert h == s[2..m];
    assert forall i | 0 <= i < |h| :: s[2..][i] == h[i];
  }

  /** The escape rule as the table runs it, under `ignoreCase`, cuts the
      valid escape `\U12345678` short after `\U1234`; the case-sensitive
      rule takes all of it. */
  lemma IgnoringCaseCutsLongEscape()
    ensures IsEscape("\\U12345678")
    ensures EscapeLenIgnoringCase("\\U12345678") == Some(6)
    ensures EscapeLen("\\U12345678") == Some(10)
  {
    var s := "\\U12345678";
    EightHexDigits();
    LongEscape(s);
    assert s[..10] == s;
  }

  /** `\U` and eight hex digits, under either reading. */
  lemma LongEscape(s: string)
    requires |s| >= 10 && s[0] == '\\' && s[1] == 'U' && Run(s[2..], Hex) >= 8
    ensures IsEscape(s[..10]) && EscapeLen(s) == Some(10) && EscapeLenIgnoringCase(s) == Some(6)
  {
    assert !SimpleEscape('U') && !SimpleEscape('u');
    assert LowerChar('U') == 'u';
    assert forall i | 0 <= i < 8 :: s[..10][2..][i] == s[2..][i];
  }

  /** Under `ignoreCase` the rule accepts `\N`, which is no escape; the
      case-sensitive rule does not. */
  lemma IgnoringCaseAcceptsBadEscape()
    ensures !IsEscape("\\N")
    ensures EscapeLenIgnoringCase("\\N") == Some(2)
    ensures EscapeLen("\\N") == None
  {
    assert LowerChar('N') == 'n';
  }

  lemma EightHexDigits()
    ensures "\\U12345678"[2..] == "12345678"
    ensures Run("12345678", Hex) == 8
  {
    assert "12345678"[1..] == "2345678";
    assert "2345678"[1..] == "345678";
    assert "345678"[1..] == "45678";
    assert "45678"[1..] == "5678";
    assert "5678"[1..] == "678";
    assert "678"[1..] == "78";
    assert "78"[1..] == "8";
  }

  /** Ё is not a letter of the table, so `Ёлка:` is no section heading. */
  lemma YoIsNoLetter()
    ensures !IsLetter('Ё') && !IsLetter('ё') && IsLetter('_')
    ensures Heading("Ёлка:").None? && LeadingWord("Ёлка:").None?
  {
    var s := "Ёлка:";
    assert !IsLetter(s[0]) && !IsSpace(s[0]);
    assert Run(s, Space) == 0;
    assert s[0..] == s;
    assert Run(s, Letter) == 0;
  }
}
