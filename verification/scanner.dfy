/**
 * The lexer of `src/compiler/scanner.rs`: a character sequence becomes a
 * sequence of tokens, each paired with a (row, col) coordinate.
 *
 * The scanner state mirrors `ScannerCtx`: the source, a cursor `ptr`,
 * the current `row`/`col`, and the two output vectors `tokens` and
 * `cood`. Every helper of the Rust code is a function on that state.
 */
module Scanner {
  import opened Wrappers
  import opened Tokens
  import StringPool

  // ---------------------------------------------------------------------
  // Character classes: Rust's `char` predicates. `is_whitespace` is the
  // whole Unicode `White_Space` set; `is_alphabetic` and `is_alphanumeric`
  // are narrowed to the ASCII letters and digits (README "Left out").
  // ---------------------------------------------------------------------

  predicate IsAsciiDigit(c: char) { '0' <= c <= '9' }

  /** `char::is_alphabetic`, on the ASCII letters only. */
  predicate IsAlphabetic(c: char) { 'a' <= c <= 'z' || 'A' <= c <= 'Z' }

  /** `char::is_alphanumeric`, on the ASCII letters and digits only. */
  predicate IsAlphanumeric(c: char) { IsAlphabetic(c) || IsAsciiDigit(c) }

  /** `char::is_whitespace`: tab through carriage return, space, next
      line, no-break space, the Ogham space mark, the spaces from en quad
      to hair space, line and paragraph separators, the narrow no-break
      space, the medium mathematical space and the ideographic space. */
  predicate IsWhitespace(c: char) {
    var n := c as int;
    (9 <= n <= 13) || n == 0x20 || n == 0x85 || n == 0xA0 || n == 0x1680 ||
    (0x2000 <= n <= 0x200A) || n == 0x2028 || n == 0x2029 || n == 0x202F ||
    n == 0x205F || n == 0x3000
  }

  /** `char::is_ascii_punctuation`: the 32 printable ASCII symbols. */
  predicate IsAsciiPunctuation(c: char) {
    ('!' <= c <= '/') || (':' <= c <= '@') || ('[' <= c <= '`') || ('{' <= c <= '~')
  }

  /** A character that may continue an identifier. */
  predicate IsIdentChar(c: char) { IsAlphanumeric(c) || c == '_' }

  /** A character that may start an identifier. */
  predicate IsIdentStart(c: char) { IsAlphabetic(c) || c == '_' }

  /** A character that belongs to a number lexeme. */
  predicate IsNumberChar(c: char) { IsAsciiDigit(c) || c == '.' }

  // ---------------------------------------------------------------------
  // The two lookup tables of `ScannerCtx::parse`.
  // ---------------------------------------------------------------------

  const Keywords: map<string, Token> := map[
    "and" := And, "or" := Or, "not" := Not, "true" := True, "false" := False,
    "while" := While, "for" := For, "var" := Var, "if" := If, "else" := Else,
    "func" := Function, "Nil" := Nil, "return" := Return, "except" := Except,
    "class" := Class, "super" := Super, "break" := Break, "continue" := Continue
  ]

  const SinglePunct: map<char, Token> := map[
    '|' := Stick, '+' := Add, '-' := Sub, '/' := LSlash, '*' := Star,
    '%' := Percent, '(' := LParen, ')' := RParen, '[' := LBracket,
    ']' := RBracket, '{' := LBrace, '}' := RBrace, ',' := Comma,
    '<' := LArrow, '>' := RArrow, ';' := Semicolon, ':' := Colon,
    '=' := Equal, '.' := Dot, '?' := Question, '@' := Dict
  ]

  /** The token an identifier lexeme becomes: its keyword, or a `Symbol`. */
  function WordToken(lexeme: string): Token {
    if lexeme in Keywords then Keywords[lexeme] else Symbol(lexeme)
  }

  // ---------------------------------------------------------------------
  // Scanner state and its primitive moves.
  // ---------------------------------------------------------------------

  datatype ScanState = ScanState(
    src: seq<char>,
    ptr: nat,
    row: nat,
    col: nat,
    tokens: seq<Token>,
    cood: seq<(nat, nat)>)

  datatype ScanErrorKind =
    | ReservedPunctuation   // "this punctuation is not used but reserved for future"
    | UnsupportedCharacter  // the message about emoji and other characters
    | IllegalNumber         // "illegal number format"
    | UnsupportedEscape     // "unsupported escaped character"
    | EofInString           // "unexpectd eof before the end of a string"

  /** An error carries the position the scanner had reached when raising it. */
  datatype ScanError = ScanError(kind: ScanErrorKind, row: nat, col: nat)

  datatype ScanResult = Scanned(state: ScanState) | ScanFailed(error: ScanError)

  /** Number of line feeds among the first `n` characters of `t`. */
  function Newlines(t: seq<char>, n: nat): nat
    requires n <= |t|
  {
    if n == 0 then 0
    else Newlines(t, n - 1) + (if t[n - 1] == '\n' then 1 else 0)
  }

  /** The cursor is inside the source. */
  ghost predicate InBounds(s: ScanState) { s.ptr <= |s.src| }

  /** `row` is one more than the number of line feeds consumed so far. */
  ghost predicate RowCountsNewlines(s: ScanState)
    requires InBounds(s)
  {
    s.row == 1 + Newlines(s.src, s.ptr)
  }

  /** `ScannerCtx::new`: cursor at the start, position (1, 1), no output. */
  function Init(src: seq<char>): (s: ScanState)
    ensures InBounds(s) && RowCountsNewlines(s)
    ensures |s.tokens| == |s.cood| == 0
  {
    ScanState(src, 0, 1, 1, [], [])
  }

  /** `peek`: the character under the cursor, if any. */
  function Peek(s: ScanState): (r: Option<char>)
    ensures r.Some? <==> s.ptr < |s.src|
    ensures r.Some? ==> r.value == s.src[s.ptr]
  {
    if s.ptr < |s.src| then Some(s.src[s.ptr]) else None
  }

  /** `peekn(n)`: the `n`-th character from the cursor (1-based), if any. */
  function PeekN(s: ScanState, n: nat): (r: Option<char>)
    requires n >= 1
    ensures r.Some? <==> s.ptr + n - 1 < |s.src|
    ensures r.Some? ==> r.value == s.src[s.ptr + n - 1]
  {
    if s.ptr + n - 1 < |s.src| then Some(s.src[s.ptr + n - 1]) else None
  }

  /** `advance`: move one character; a consumed line feed starts a new row
      (the column is reset to 1 and then incremented like any other). */
  function Advance(s: ScanState): (r: ScanState)
    requires s.ptr < |s.src|
    ensures r.ptr == s.ptr + 1 && r.src == s.src
    ensures r.row == (if s.src[s.ptr] == '\n' then s.row + 1 else s.row)
    ensures r.col == (if s.src[s.ptr] == '\n' then 2 else s.col + 1)
    ensures r.tokens == s.tokens && r.cood == s.cood
    ensures RowCountsNewlines(s) ==> RowCountsNewlines(r)
  {
    var s1 := if s.src[s.ptr] == '\n' then s.(col := 1, row := s.row + 1) else s;
    s1.(ptr := s1.ptr + 1, col := s1.col + 1)
  }

  /** `n` calls of `advance`. */
  function AdvanceN(s: ScanState, n: nat): (r: ScanState)
    requires s.ptr + n <= |s.src|
    ensures r.ptr == s.ptr + n && r.src == s.src
    ensures r.tokens == s.tokens && r.cood == s.cood
    ensures RowCountsNewlines(s) ==> RowCountsNewlines(r)
    decreases n
  {
    if n == 0 then s else AdvanceN(Advance(s), n - 1)
  }

  /** `tokens.push(t)` followed by `record_pos()`. */
  function EmitToken(s: ScanState, t: Token): (r: ScanState)
    ensures r.tokens == s.tokens + [t]
    ensures r.cood == s.cood + [(s.row, s.col)]
    ensures r.src == s.src && r.ptr == s.ptr && r.row == s.row && r.col == s.col
  {
    s.(tokens := s.tokens + [t], cood := s.cood + [(s.row, s.col)])
  }

  // ---------------------------------------------------------------------
  // Comments.
  // ---------------------------------------------------------------------

  /** The `//` branch: advance over every character up to, not including,
      the next line feed. No token is produced. */
  function SkipComment(s: ScanState): (r: ScanState)
    requires InBounds(s)
    ensures InBounds(r) && r.src == s.src && r.ptr >= s.ptr
    ensures r.tokens == s.tokens && r.cood == s.cood
    ensures forall k :: s.ptr <= k < r.ptr ==> s.src[k] != '\n'
    ensures r.ptr == |r.src| || r.src[r.ptr] == '\n'
    ensures RowCountsNewlines(s) ==> RowCountsNewlines(r)
    decreases |s.src| - s.ptr
  {
    match Peek(s)
    case None => s
    case Some(c) => if c != '\n' then SkipComment(Advance(s)) else s
  }

  // ---------------------------------------------------------------------
  // Identifiers.
  // ---------------------------------------------------------------------

  /** The loop of `identifier`: append characters while they are
      alphanumeric or `_`. */
  function IdentTail(s: ScanState, acc: string): (r: (ScanState, string))
    requires InBounds(s)
    ensures InBounds(r.0) && r.0.src == s.src && r.0.ptr >= s.ptr
    ensures r.1 == acc + s.src[s.ptr..r.0.ptr]
    ensures forall k :: s.ptr <= k < r.0.ptr ==> IsIdentChar(s.src[k])
    ensures r.0.ptr == |s.src| || !IsIdentChar(s.src[r.0.ptr])
    ensures r.0.tokens == s.tokens && r.0.cood == s.cood
    ensures RowCountsNewlines(s) ==> RowCountsNewlines(r.0)
    decreases |s.src| - s.ptr
  {
    if s.ptr < |s.src| && IsIdentChar(s.src[s.ptr]) then
      var c := s.src[s.ptr];
      var s1 := Advance(s);
      var r := IdentTail(s1, acc + [c]);
      assert s.src[s.ptr..r.0.ptr] == [c] + s.src[s1.ptr..r.0.ptr];
      r
    else (s, acc)
  }

  /** `identifier`: the first character unconditionally, then the tail.
      The lexeme is the maximal identifier run at the cursor. */
  function Identifier(s: ScanState): (r: (ScanState, string))
    requires InBounds(s) && s.ptr < |s.src| && IsIdentStart(s.src[s.ptr])
    ensures InBounds(r.0) && r.0.src == s.src && r.0.ptr > s.ptr
    ensures r.1 == s.src[s.ptr..r.0.ptr]
    ensures IsIdentStart(r.1[0])
    ensures forall k :: 1 <= k < |r.1| ==> IsIdentChar(r.1[k])
    ensures r.0.ptr == |s.src| || !IsIdentChar(s.src[r.0.ptr])
    ensures r.0.tokens == s.tokens && r.0.cood == s.cood
    ensures RowCountsNewlines(s) ==> RowCountsNewlines(r.0)
  {
    var c := s.src[s.ptr];
    var r := IdentTail(Advance(s), [c]);
    assert s.src[s.ptr..r.0.ptr] == [c] + s.src[s.ptr + 1..r.0.ptr];
    r
  }

  // ---------------------------------------------------------------------
  // Numbers (kept as lexemes; the f64 conversion is not modelled).
  // ---------------------------------------------------------------------

  /** Number of `.` characters in `t`. */
  function DotCount(t: string): nat
  {
    if |t| == 0 then 0 else (if t[0] == '.' then 1 else 0) + DotCount(t[1..])
  }

  /** Whether `str::parse::<f64>` accepts a lexeme made of ASCII digits and
      dots that starts with a digit: exactly when it has at most one dot
      (`12`, `1.5` and `1.` parse; `1.2.3` and `1..2` do not). */
  predicate ParsesAsF64(lexeme: string) {
    DotCount(lexeme) <= 1
  }

  /** The loop of `number`: append digits and dots. */
  function NumberRun(s: ScanState, acc: string): (r: (ScanState, string))
    requires InBounds(s)
    ensures InBounds(r.0) && r.0.src == s.src && r.0.ptr >= s.ptr
    ensures r.1 == acc + s.src[s.ptr..r.0.ptr]
    ensures forall k :: s.ptr <= k < r.0.ptr ==> IsNumberChar(s.src[k])
    ensures r.0.ptr == |s.src| || !IsNumberChar(s.src[r.0.ptr])
    ensures r.0.tokens == s.tokens && r.0.cood == s.cood
    ensures RowCountsNewlines(s) ==> RowCountsNewlines(r.0)
    decreases |s.src| - s.ptr
  {
    if s.ptr < |s.src| && IsNumberChar(s.src[s.ptr]) then
      var c := s.src[s.ptr];
      var s1 := Advance(s);
      var r := NumberRun(s1, acc + [c]);
      assert s.src[s.ptr..r.0.ptr] == [c] + s.src[s1.ptr..r.0.ptr];
      r
    else (s, acc)
  }

  datatype NumberResult = NumberOk(state: ScanState, lexeme: string) | NumberErr(error: ScanError)

  /** `number`: the maximal run of digits and dots, rejected with
      "illegal number format" (at the position after the run) when it
      does not parse. */
  function Number(s: ScanState): (r: NumberResult)
    requires InBounds(s) && s.ptr < |s.src| && IsAsciiDigit(s.src[s.ptr])
    ensures r.NumberOk? ==> InBounds(r.state) && r.state.src == s.src && r.state.ptr > s.ptr
    ensures r.NumberOk? ==> r.lexeme == s.src[s.ptr..r.state.ptr]
    ensures r.NumberOk? ==> r.state.ptr == |s.src| || !IsNumberChar(s.src[r.state.ptr])
    ensures r.NumberOk? ==> r.state.tokens == s.tokens && r.state.cood == s.cood
    ensures r.NumberOk? && RowCountsNewlines(s) ==> RowCountsNewlines(r.state)
    ensures r.NumberErr? ==> r.error.kind == IllegalNumber
  {
    var (s1, lexeme) := NumberRun(s, []);
    if ParsesAsF64(lexeme) then NumberOk(s1, lexeme)
    else NumberErr(ScanError(IllegalNumber, s1.row, s1.col))
  }

  /** Lemma: the number branch fails exactly when the maximal run of digits
      and dots holds two or more dots; `1.2.3` is one such run. */
  lemma NumberFailsIffManyDots(s: ScanState)
    requires InBounds(s) && s.ptr < |s.src| && IsAsciiDigit(s.src[s.ptr])
    ensures var run := NumberRun(s, []);
            Number(s).NumberErr? <==> DotCount(s.src[s.ptr..run.0.ptr]) >= 2
  {
  }

  /** Lemma (example): `1.2.3;` is rejected; the run stops at the `;`. */
  lemma IllegalNumberExample(s: ScanState)
    requires s.ptr == 0 && s.src == "1.2.3;"
    ensures Number(s).NumberErr?
  {
    var run := NumberRun(s, []);
    assert !IsNumberChar(s.src[5]);
    assert forall k :: 0 <= k < 5 ==> IsNumberChar(s.src[k]);
    assert run.0.ptr == 5;
    assert s.src[0..5] == "1.2.3";
    assert DotCount("1.2.3") == 2;
  }

  // ---------------------------------------------------------------------
  // Strings.
  // ---------------------------------------------------------------------

  /** The six supported escapes `\' \" \n \t \r \\`. */
  function Unescape(c: char): Option<char>
  {
    if c == '\'' then Some('\'')
    else if c == '"' then Some('"')
    else if c == 'n' then Some('\n')
    else if c == 't' then Some('\t')
    else if c == 'r' then Some('\r')
    else if c == '\\' then Some('\\')
    else None
  }

  /** One iteration of the loop in `string`. */
  datatype StringMove =
    | More(state: ScanState, acc: string)
    | Closed(state: ScanState, acc: string)
    | Failed(error: ScanError)

  /** One iteration of the loop of `string` exactly as written: a closing
      quote ends the literal; a backslash followed by a character consumes
      both and appends the escaped character (or fails on an unknown
      escape); a backslash with nothing after it does nothing at all. */
  function StringStepAsWritten(s: ScanState, acc: string): (r: StringMove)
    requires InBounds(s)
  {
    if s.ptr == |s.src| then Failed(ScanError(EofInString, s.row, s.col))
    else
      var c := s.src[s.ptr];
      if c == '"' then Closed(Advance(s), acc)
      else if c == '\\' then
        if s.ptr + 1 < |s.src| then
          var e := Unescape(s.src[s.ptr + 1]);
          if e.Some? then More(Advance(Advance(s)), acc + [e.value])
          else Failed(ScanError(UnsupportedEscape, s.row, s.col))
        else More(s, acc)
      else More(Advance(s), acc + [c])
  }

  /** Lemma (finding): when the last character of the input is a backslash
      inside a string literal (the input `"\` is the shortest case), the
      body of the loop of `string` maps the state to itself, so the scanner
      spins forever instead of reporting the unterminated literal. */
  lemma StringLoopStuckOnTrailingBackslash(s: ScanState, acc: string)
    requires s.ptr + 1 == |s.src| && s.src[s.ptr] == '\\'
    ensures StringStepAsWritten(s, acc) == More(s, acc)
  {
  }

  /** The loop body with the one repair: a backslash at the end of input is
      the end-of-input error the loop already raises when no character is
      left. Every `Continue` moves the cursor forward. */
  function StringStep(s: ScanState, acc: string): (r: StringMove)
    requires InBounds(s)
    ensures r.More? ==> InBounds(r.state) && r.state.ptr > s.ptr
    ensures (r.More? || r.Closed?) ==> InBounds(r.state) && r.state.src == s.src
    ensures (r.More? || r.Closed?) ==> r.state.tokens == s.tokens && r.state.cood == s.cood
    ensures (r.More? || r.Closed?) && RowCountsNewlines(s) ==> RowCountsNewlines(r.state)
    ensures r.Closed? ==> InBounds(r.state) && r.state.ptr == s.ptr + 1 && s.src[s.ptr] == '"' && r.acc == acc
  {
    if s.ptr + 1 == |s.src| && s.src[s.ptr] == '\\' then Failed(ScanError(EofInString, s.row, s.col))
    else StringStepAsWritten(s, acc)
  }

  /** Lemma: the repaired step differs from the one as written only on a
      backslash that is the last character of the input, where it reports
      the unterminated literal instead of standing still. */
  lemma StringStepRepairsOnlyTrailingBackslash(s: ScanState, acc: string)
    requires InBounds(s)
    ensures s.ptr + 1 == |s.src| && s.src[s.ptr] == '\\' ==>
              StringStep(s, acc) == Failed(ScanError(EofInString, s.row, s.col)) &&
              StringStepAsWritten(s, acc) == More(s, acc)
    ensures !(s.ptr + 1 == |s.src| && s.src[s.ptr] == '\\') ==> StringStep(s, acc) == StringStepAsWritten(s, acc)
  {
  }

  datatype StringResult = StringOk(state: ScanState, value: string) | StringErr(error: ScanError)

  /** The loop of `string` after the opening quote. */
  function StringBody(s: ScanState, acc: string): (r: StringResult)
    requires InBounds(s)
    ensures r.StringOk? ==> InBounds(r.state) && r.state.src == s.src && r.state.ptr > s.ptr
    ensures r.StringOk? ==> r.state.tokens == s.tokens && r.state.cood == s.cood
    ensures r.StringOk? && RowCountsNewlines(s) ==> RowCountsNewlines(r.state)
    decreases |s.src| - s.ptr
  {
    match StringStep(s, acc)
    case More(s1, acc1) => StringBody(s1, acc1)
    case Closed(s1, acc1) => StringOk(s1, acc1)
    case Failed(e) => StringErr(e)
  }

  /** `string`: consume the opening quote, then run the loop. */
  function StringLiteral(s: ScanState): (r: StringResult)
    requires InBounds(s) && s.ptr < |s.src| && s.src[s.ptr] == '"'
    ensures r.StringOk? ==> InBounds(r.state) && r.state.src == s.src && r.state.ptr > s.ptr
    ensures r.StringOk? ==> r.state.tokens == s.tokens && r.state.cood == s.cood
    ensures r.StringOk? && RowCountsNewlines(s) ==> RowCountsNewlines(r.state)
  {
    StringBody(Advance(s), [])
  }

  /** Reference decoding of the text that follows an opening quote, stated
      on the text alone: the value up to the closing quote and the number
      of characters consumed (closing quote included), or `None` when the
      literal is unterminated or holds an unsupported escape. */
  function DecodeLiteral(t: seq<char>): (r: Option<(string, nat)>)
    decreases |t|
  {
    if |t| == 0 then None
    else if t[0] == '"' then Some(([], 1))
    else if t[0] == '\\' then
      if |t| < 2 then None
      else match Unescape(t[1])
        case None => None
        case Some(e) =>
          (match DecodeLiteral(t[2..])
           case None => None
           case Some((v, n)) => Some(([e] + v, n + 2)))
    else match DecodeLiteral(t[1..])
      case None => None
      case Some((v, n)) => Some(([t[0]] + v, n + 1))
  }

  /** Lemma: a successful decoding stops right after a closing quote that
      lies inside the text, and the value is shorter than what it consumed. */
  lemma {:induction false} DecodeLiteralEndsAtQuote(t: seq<char>)
    ensures var r := DecodeLiteral(t);
            r.Some? ==> 1 <= r.value.1 <= |t| && t[r.value.1 - 1] == '"' && |r.value.0| < r.value.1
    decreases |t|
  {
    if |t| > 0 && t[0] != '"' {
      if t[0] == '\\' {
        if |t| >= 2 {
          DecodeLiteralEndsAtQuote(t[2..]);
        }
      } else {
        DecodeLiteralEndsAtQuote(t[1..]);
      }
    }
  }

  /** Lemma (simulation): the loop of `string` (with the repaired step)
      succeeds exactly when the reference decoding of the remaining text
      does, and then appends the decoded value and stops right after the
      closing quote. */
  lemma {:induction false} StringBodyMatchesDecode(s: ScanState, acc: string)
    requires InBounds(s)
    ensures StringBody(s, acc).StringOk? <==> DecodeLiteral(s.src[s.ptr..]).Some?
    ensures StringBody(s, acc).StringOk? ==>
              StringBody(s, acc).value == acc + DecodeLiteral(s.src[s.ptr..]).value.0 &&
              StringBody(s, acc).state.ptr == s.ptr + DecodeLiteral(s.src[s.ptr..]).value.1
    decreases |s.src| - s.ptr
  {
    var t := s.src[s.ptr..];
    match StringStep(s, acc)
    case Closed(s1, acc1) =>
      assert t[0] == '"';
    case Failed(_) =>
      StringFailureMatchesDecode(s, acc);
    case More(s1, acc1) =>
      StringBodyMatchesDecode(s1, acc1);
      StringMoreMatchesDecode(s, acc);
  }

  /** A failing step is a failing reference decoding. */
  lemma StringFailureMatchesDecode(s: ScanState, acc: string)
    requires InBounds(s) && StringStep(s, acc).Failed?
    ensures DecodeLiteral(s.src[s.ptr..]).None?
  {
    var t := s.src[s.ptr..];
    if |t| > 0 {
      assert t[0] == s.src[s.ptr];
      if |t| >= 2 { assert t[1] == s.src[s.ptr + 1]; }
    }
  }

  /** A `More` step consumes the characters the reference decoding consumes
      for the first character of the value. */
  lemma StringMoreMatchesDecode(s: ScanState, acc: string)
    requires InBounds(s) && StringStep(s, acc).More?
    ensures var st := StringStep(s, acc);
            var k := st.state.ptr - s.ptr;
            var t := s.src[s.ptr..];
            (k == 1 || k == 2) && k <= |t| &&
            st.state.src[st.state.ptr..] == t[k..] &&
            st.acc == acc + (if k == 1 then [t[0]] else [Unescape(t[1]).value]) &&
            (DecodeLiteral(t).Some? <==> DecodeLiteral(t[k..]).Some?) &&
            (DecodeLiteral(t).Some? ==>
               DecodeLiteral(t).value.0 == st.acc[|acc|..] + DecodeLiteral(t[k..]).value.0 &&
               DecodeLiteral(t).value.1 == k + DecodeLiteral(t[k..]).value.1)
  {
    var t := s.src[s.ptr..];
    assert t[0] == s.src[s.ptr];
    if s.src[s.ptr] == '\\' {
      assert t[1] == s.src[s.ptr + 1];
    }
  }

  /** How a string value is written inside quotes: `"` and `\` are escaped,
      every other character stands for itself. */
  function QuoteChar(c: char): (q: seq<char>)
    ensures 1 <= |q| <= 2
  {
    if c == '"' then ['\\', '"'] else if c == '\\' then ['\\', '\\'] else [c]
  }

  function Quote(x: string): (q: seq<char>)
    ensures |q| >= |x|
  {
    if |x| == 0 then [] else QuoteChar(x[0]) + Quote(x[1..])
  }

  /** Lemma (round trip, on text): decoding the quoted form of a value
      followed by a closing quote gives the value back, whatever follows. */
  lemma {:induction false} DecodeQuote(x: string, rest: seq<char>)
    ensures DecodeLiteral(Quote(x) + ['"'] + rest) == Some((x, |Quote(x)| + 1))
    decreases |x|
  {
    var t := Quote(x) + ['"'] + rest;
    if |x| == 0 {
      assert t[0] == '"';
    } else {
      var c := x[0];
      var tail := Quote(x[1..]) + ['"'] + rest;
      assert t == QuoteChar(c) + tail;
      DecodeQuote(x[1..], rest);
      assert [c] + x[1..] == x;
      var n := |Quote(x[1..])| + 1;
      assert |Quote(x)| + 1 == |QuoteChar(c)| + n;
      if c == '"' || c == '\\' {
        assert t[0] == '\\' && t[1] == c && t[2..] == tail;
        assert Unescape(c) == Some(c);
        assert DecodeLiteral(t) == Some(([c] + x[1..], n + 2));
      } else {
        assert t[0] == c && t[1..] == tail;
        assert DecodeLiteral(t) == Some(([c] + x[1..], n + 1));
      }
    }
  }

  /** Lemma (round trip): the scanner's string branch turns a quoted value
      back into the value and stops right after the closing quote. */
  lemma StringLiteralDecodesQuote(s: ScanState, x: string, rest: seq<char>)
    requires InBounds(s)
    requires s.src[s.ptr..] == ['"'] + Quote(x) + ['"'] + rest
    ensures StringLiteral(s).StringOk?
    ensures StringLiteral(s).value == x
    ensures StringLiteral(s).state.ptr == s.ptr + |Quote(x)| + 2
  {
    assert s.src[s.ptr] == s.src[s.ptr..][0];
    var s1 := Advance(s);
    assert s1.src[s1.ptr..] == Quote(x) + ['"'] + rest by {
      assert s1.src[s1.ptr..] == s.src[s.ptr..][1..];
    }
    DecodeQuote(x, rest);
    StringBodyMatchesDecode(s1, []);
  }

  /** Lemma: a literal whose remaining text holds no `"` at all can never be
      closed, so the loop ends in an error (end of input or a bad escape). */
  lemma {:induction false} StringBodyFailsWithoutQuote(s: ScanState, acc: string)
    requires InBounds(s)
    requires forall k :: s.ptr <= k < |s.src| ==> s.src[k] != '"'
    ensures StringBody(s, acc).StringErr?
    decreases |s.src| - s.ptr
  {
    match StringStep(s, acc)
    case More(s1, acc1) => StringBodyFailsWithoutQuote(s1, acc1);
    case Closed(_, _) => assert false;
    case Failed(_) =>
  }

  /** Lemma: an escape other than the six supported ones is an error. */
  lemma UnknownEscapeFails(s: ScanState, acc: string)
    requires InBounds(s) && s.ptr + 1 < |s.src|
    requires s.src[s.ptr] == '\\' && Unescape(s.src[s.ptr + 1]).None?
    ensures StringBody(s, acc) == StringErr(ScanError(UnsupportedEscape, s.row, s.col))
  {
  }

  // ---------------------------------------------------------------------
  // Punctuation.
  // ---------------------------------------------------------------------

  /** The single-character table lookup. */
  function SingleToken(c: char): Option<(Token, nat)>
  {
    if c in SinglePunct then Some((SinglePunct[c], 1)) else None
  }

  /** The punctuation branch of `parse`: the token and the number of
      characters it spans, tried in the source's order (three-character
      operators, then two-character ones, then `..`, then the single
      table), or `None` for a reserved character such as a lone `!`. */
  function MatchPunct(rest: seq<char>): (r: Option<(Token, nat)>)
    requires |rest| >= 1
    ensures r.Some? ==> 1 <= r.value.1 <= 3 && r.value.1 <= |rest|
  {
    var c := rest[0];
    if |rest| >= 2 then
      var ahead := rest[1];
      if |rest| >= 3 && c == '.' && ahead == '.' && rest[2] == '=' then Some((DotsEq, 3))
      else if |rest| >= 3 && c == '.' && ahead == '.' && rest[2] == '.' then Some((ThreeDots, 3))
      else if c == '!' && ahead == '=' then Some((NotEqual, 2))
      else if c == '<' && ahead == '=' then Some((Le, 2))
      else if c == '>' && ahead == '=' then Some((Ge, 2))
      else if c == '=' && ahead == '=' then Some((EEqual, 2))
      else if c == '|' && ahead == '>' then Some((PipeOp, 2))
      else if c == '+' && ahead == '=' then Some((AddAssign, 2))
      else if c == '-' && ahead == '=' then Some((SubAssign, 2))
      else if c == '*' && ahead == '=' then Some((MulAssign, 2))
      else if c == '/' && ahead == '=' then Some((DivAssign, 2))
      else if c == '%' && ahead == '=' then Some((ModAssign, 2))
      else if c == '.' && ahead == '.' then Some((Dots, 2))
      else SingleToken(c)
    else SingleToken(c)
  }

  /** Every operator spelling with its token, listed independently of the
      order in which the scanner tries them. */
  const Operators: seq<(string, Token)> := [
    ("..=", DotsEq), ("...", ThreeDots),
    ("!=", NotEqual), ("<=", Le), (">=", Ge), ("==", EEqual), ("|>", PipeOp),
    ("+=", AddAssign), ("-=", SubAssign), ("*=", MulAssign), ("/=", DivAssign),
    ("%=", ModAssign), ("..", Dots),
    ("|", Stick), ("+", Add), ("-", Sub), ("/", LSlash), ("*", Star),
    ("%", Percent), ("(", LParen), (")", RParen), ("[", LBracket),
    ("]", RBracket), ("{", LBrace), ("}", RBrace), (",", Comma),
    ("<", LArrow), (">", RArrow), (";", Semicolon), (":", Colon),
    ("=", Equal), (".", Dot), ("?", Question), ("@", Dict)
  ]

  predicate StartsWith(rest: seq<char>, sp: string) {
    |sp| <= |rest| && rest[..|sp|] == sp
  }

  /** Lemma: the matched text is the spelling of the returned token. */
  lemma MatchPunctSpellsToken(rest: seq<char>)
    requires |rest| >= 1
    ensures var r := MatchPunct(rest);
            r.Some? ==> (rest[..r.value.1], r.value.0) in Operators
  {
    var r := MatchPunct(rest);
    if r.Some? {
      var n := r.value.1;
      if n == 1 {
        assert rest[..1] == [rest[0]];
      } else if n == 2 {
        assert rest[..2] == [rest[0], rest[1]];
      } else {
        assert rest[..3] == [rest[0], rest[1], rest[2]];
      }
    }
  }

  /** Lemma (longest match): no operator with a longer spelling than the
      matched one is a prefix of the input. */
  lemma MatchPunctIsLongest(rest: seq<char>, i: nat)
    requires |rest| >= 1 && i < |Operators| && StartsWith(rest, Operators[i].0)
    ensures MatchPunct(rest).Some?
    ensures |Operators[i].0| <= MatchPunct(rest).value.1
  {
    var sp := Operators[i].0;
    assert rest[..|sp|] == sp;
    assert rest[0] == sp[0];
    if |sp| >= 2 { assert rest[1] == sp[1]; }
    if |sp| >= 3 { assert rest[2] == sp[2]; }
  }

  /** Lemma: the punctuation branch fails exactly when no operator spelling
      is a prefix of the input. */
  lemma MatchPunctNoneIffNoOperator(rest: seq<char>)
    requires |rest| >= 1
    ensures MatchPunct(rest).None? <==> forall i :: 0 <= i < |Operators| ==> !StartsWith(rest, Operators[i].0)
  {
    if MatchPunct(rest).Some? {
      MatchPunctSpellsToken(rest);
      var n := MatchPunct(rest).value.1;
      var i :| 0 <= i < |Operators| && Operators[i] == (rest[..n], MatchPunct(rest).value.0);
      assert StartsWith(rest, Operators[i].0);
    } else {
      forall i | 0 <= i < |Operators|
        ensures !StartsWith(rest, Operators[i].0)
      {
        if StartsWith(rest, Operators[i].0) {
          MatchPunctIsLongest(rest, i);
        }
      }
    }
  }

  // ---------------------------------------------------------------------
  // The main loop.
  // ---------------------------------------------------------------------

  /** One iteration of the loop of `parse`. */
  datatype Step = Finished | Next(state: ScanState) | Stop(error: ScanError)

  /** One iteration of the loop of `ScannerCtx::parse`, branch by branch in
      the source's order. Number, identifier and string tokens are recorded
      with the position after their last character, punctuation with the
      position of its first character. */
  function ScanStep(s: ScanState): (r: Step)
    requires InBounds(s)
    ensures r.Finished? <==> s.ptr == |s.src|
    ensures r.Next? ==> InBounds(r.state) && r.state.src == s.src && r.state.ptr > s.ptr
    ensures r.Next? ==> |r.state.tokens| - |s.tokens| == |r.state.cood| - |s.cood| <= 1
    ensures r.Next? ==> |r.state.tokens| >= |s.tokens| && r.state.tokens[..|s.tokens|] == s.tokens
    ensures r.Next? && RowCountsNewlines(s) ==> RowCountsNewlines(r.state)
  {
    match Peek(s)
    case None => Finished
    case Some(c) =>
      if c == '/' && PeekN(s, 2) == Some('/') then
        var s1 := SkipComment(s);
        assert s1.ptr > s.ptr;
        Next(s1)
      else if IsAsciiDigit(c) then
        match Number(s)
        case NumberOk(s1, lexeme) => Next(EmitToken(s1, Tokens.Number(lexeme)))
        case NumberErr(e) => Stop(e)
      else if IsIdentStart(c) then
        var (s1, word) := Identifier(s);
        Next(EmitToken(s1, WordToken(word)))
      else if c == '"' then
        match StringLiteral(s)
        case StringOk(s1, value) => Next(EmitToken(s1, Tokens.String(value)))
        case StringErr(e) => Stop(e)
      else if IsAsciiPunctuation(c) then
        match MatchPunct(s.src[s.ptr..])
        case Some((t, n)) => Next(AdvanceN(EmitToken(s, t), n))
        case None => Stop(ScanError(ReservedPunctuation, s.row, s.col))
      else if IsWhitespace(c) then
        Next(Advance(s))
      else
        Stop(ScanError(UnsupportedCharacter, s.row, s.col))
  }

  /** `ScannerCtx::parse`: run the loop until the input is exhausted or a
      branch fails. On success the whole input is consumed, every token has
      exactly one coordinate, earlier output is kept as a prefix, and the
      row counts the line feeds of the input. */
  function Scan(s: ScanState): (r: ScanResult)
    requires InBounds(s)
    ensures r.Scanned? ==> r.state.src == s.src && r.state.ptr == |s.src|
    ensures r.Scanned? && |s.tokens| == |s.cood| ==> |r.state.tokens| == |r.state.cood|
    ensures r.Scanned? ==> |r.state.tokens| >= |s.tokens| && r.state.tokens[..|s.tokens|] == s.tokens
    ensures r.Scanned? && RowCountsNewlines(s) ==> r.state.row == 1 + Newlines(s.src, |s.src|)
    decreases |s.src| - s.ptr
  {
    match ScanStep(s)
    case Finished =>
      Scanned(s)
    case Next(s1) =>
      var r := Scan(s1);
      if r.Scanned? then
        assert r.state.tokens[..|s.tokens|] == r.state.tokens[..|s1.tokens|][..|s.tokens|];
        r
      else r
    case Stop(e) => ScanFailed(e)
  }

  /** Scanning a whole program from `ScannerCtx::new`. */
  function Tokenize(src: seq<char>): (r: ScanResult)
    ensures r.Scanned? ==> |r.state.tokens| == |r.state.cood|
    ensures r.Scanned? ==> r.state.row == 1 + Newlines(src, |src|)
    ensures |src| == 0 ==> r == Scanned(Init(src))
  {
    Scan(Init(src))
  }

  // ---------------------------------------------------------------------
  // What one iteration appends, by the class of the character at the
  // cursor (the branches are tried in this order).
  // ---------------------------------------------------------------------

  /** Lemma: `//` starts a comment, which appends nothing. */
  lemma ScanStepComment(s: ScanState)
    requires InBounds(s) && s.ptr + 1 < |s.src| && s.src[s.ptr] == '/' && s.src[s.ptr + 1] == '/'
    ensures var r := ScanStep(s);
      r.Next? && r.state.tokens == s.tokens && r.state.cood == s.cood
  {
  }

  /** Lemma: a digit starts a number. The maximal run of digits and dots is
      appended as a `Number` lexeme, unless it holds two or more dots, which
      is the illegal-number error. */
  lemma ScanStepNumber(s: ScanState)
    requires InBounds(s) && s.ptr < |s.src| && IsAsciiDigit(s.src[s.ptr])
    ensures var r := ScanStep(s); var end := NumberRun(s, []).0.ptr;
      (r.Next? <==> DotCount(s.src[s.ptr..end]) <= 1) &&
      (r.Next? ==> r.state.ptr == end && r.state.tokens == s.tokens + [Tokens.Number(s.src[s.ptr..end])]) &&
      (r.Stop? ==> r.error.kind == IllegalNumber) &&
      (forall k :: s.ptr <= k < end ==> IsNumberChar(s.src[k])) &&
      (end == |s.src| || !IsNumberChar(s.src[end]))
  {
    assert s.src[s.ptr] != '/' && Peek(s) == Some(s.src[s.ptr]);
    NumberFailsIffManyDots(s);
  }

  /** Lemma: a letter or `_` starts a word. Its maximal run of letters,
      digits and `_` is appended as its keyword, or as a `Symbol` carrying
      the text. */
  lemma ScanStepWord(s: ScanState)
    requires InBounds(s) && s.ptr < |s.src| && IsIdentStart(s.src[s.ptr])
    ensures var r := ScanStep(s);
      r.Next? && r.state.ptr > s.ptr &&
      r.state.tokens == s.tokens + [WordToken(s.src[s.ptr..r.state.ptr])] &&
      (forall k :: s.ptr < k < r.state.ptr ==> IsIdentChar(s.src[k])) &&
      (r.state.ptr == |s.src| || !IsIdentChar(s.src[r.state.ptr]))
  {
    var w := Identifier(s);
    assert forall k :: s.ptr < k < w.0.ptr ==> s.src[k] == w.1[k - s.ptr];
  }

  /** Lemma: a quote starts a string literal. The step succeeds exactly
      when the reference decoding of the text after the quote does, and
      then appends the decoded value and stops after the closing quote. */
  lemma ScanStepString(s: ScanState)
    requires InBounds(s) && s.ptr < |s.src| && s.src[s.ptr] == '"'
    ensures var r := ScanStep(s); var d := DecodeLiteral(s.src[s.ptr + 1..]);
      (r.Next? <==> d.Some?) &&
      (r.Next? ==> r.state.tokens == s.tokens + [Tokens.String(d.value.0)] && r.state.ptr == s.ptr + 1 + d.value.1)
  {
    var s1 := Advance(s);
    StringBodyMatchesDecode(s1, []);
    var d := DecodeLiteral(s.src[s.ptr + 1..]);
    if d.Some? {
      assert [] + d.value.0 == d.value.0;
    }
  }

  /** Lemma: any other punctuation appends the operator `MatchPunct` finds
      (the longest one spelled at the cursor) with the position of its
      first character, and moves past it; no operator is the
      reserved-punctuation error. */
  lemma ScanStepPunct(s: ScanState)
    requires InBounds(s) && s.ptr < |s.src| && IsAsciiPunctuation(s.src[s.ptr])
    requires s.src[s.ptr] != '"' && s.src[s.ptr] != '_'
    requires !(s.src[s.ptr] == '/' && s.ptr + 1 < |s.src| && s.src[s.ptr + 1] == '/')
    ensures var r := ScanStep(s); var m := MatchPunct(s.src[s.ptr..]);
      (m.Some? ==> r.Next? && r.state.tokens == s.tokens + [m.value.0] &&
                   r.state.cood == s.cood + [(s.row, s.col)] && r.state.ptr == s.ptr + m.value.1) &&
      (m.None? ==> r == Stop(ScanError(ReservedPunctuation, s.row, s.col)))
  {
  }

  /** Lemma: whitespace is skipped one character at a time and appends
      nothing. */
  lemma ScanStepWhitespace(s: ScanState)
    requires InBounds(s) && s.ptr < |s.src| && IsWhitespace(s.src[s.ptr])
    ensures var r := ScanStep(s);
      r.Next? && r.state.ptr == s.ptr + 1 && r.state.tokens == s.tokens && r.state.cood == s.cood
  {
    var c := s.src[s.ptr];
    assert !IsAsciiDigit(c) && !IsIdentStart(c) && c != '"' && c != '/' && !IsAsciiPunctuation(c);
  }

  /** Lemma: a character of no class above is the unsupported-character
      error. */
  lemma ScanStepUnsupported(s: ScanState)
    requires InBounds(s) && s.ptr < |s.src|
    requires var c := s.src[s.ptr];
      !IsAsciiDigit(c) && !IsIdentStart(c) && !IsAsciiPunctuation(c) && !IsWhitespace(c)
    ensures ScanStep(s) == Stop(ScanError(UnsupportedCharacter, s.row, s.col))
  {
  }

  /** Lemma: an identifier becomes its keyword token exactly when it is in
      the keyword table, and a `Symbol` carrying its text otherwise. */
  lemma WordTokenIsKeywordOrSymbol(lexeme: string)
    ensures lexeme in Keywords ==> WordToken(lexeme) == Keywords[lexeme] && !WordToken(lexeme).Symbol?
    ensures lexeme !in Keywords ==> WordToken(lexeme) == Symbol(lexeme)
  {
  }

  /** Lemma (example): a comment produces no token and stops at the line
      feed, which the next iteration then consumes as whitespace. */
  lemma CommentSkipsToLineEnd(s: ScanState)
    requires s.ptr == 0 && s.src == "// x = 1;\nvar" && s.tokens == [] && s.cood == []
    ensures var r := ScanStep(s);
            r.Next? && r.state.ptr == 9 && r.state.tokens == [] && r.state.cood == []
  {
    assert s.src[0] == '/' && s.src[1] == '/';
    var r := SkipComment(s);
    assert forall k :: 0 <= k < 9 ==> s.src[k] != '\n';
    assert s.src[9] == '\n';
    assert r.ptr == 9;
  }

  // ---------------------------------------------------------------------
  // The string pool. `parse` calls `creat_istring` for every `String` and
  // `Symbol` token as it pushes it, and for no other token; the token
  // keeps the returned handle.
  // ---------------------------------------------------------------------

  /** The text a token interns: the contents of a `String`, the name of a
      `Symbol`, and nothing for any other token. */
  function InternedText(t: Token): Option<string> {
    match t
    case String(x) => Some(x)
    case Symbol(x) => Some(x)
    case _ => None
  }

  /** The handle names a live entry that holds the text and counts at
      least one handle. */
  predicate Holds(p: StringPool.Pool, h: StringPool.IString, x: string) {
    h.ptr in p.entries && p.entries[h.ptr].data == x && p.entries[h.ptr].refCount > 0
  }

  /** Each token holds a handle exactly when it interns a text, and that
      handle holds the text. */
  predicate HandlesHold(p: StringPool.Pool, toks: seq<Token>, hs: seq<Option<StringPool.IString>>)
    requires |hs| == |toks|
  {
    forall i :: 0 <= i < |toks| ==>
      && (hs[i].Some? <==> InternedText(toks[i]).Some?)
      && (hs[i].Some? ==> Holds(p, hs[i].value, InternedText(toks[i]).value))
  }

  /** The calls of `creat_istring` a scan makes, in token order: the pool
      they leave, and the handle each token holds. */
  function InternTokens(p: StringPool.Pool, toks: seq<Token>): (r: (StringPool.Pool, seq<Option<StringPool.IString>>))
    requires StringPool.Valid(p)
    ensures StringPool.Valid(r.0) && |r.1| == |toks| && HandlesHold(r.0, toks, r.1)
    decreases |toks|
  {
    if |toks| == 0 then (p, [])
    else
      var (p1, hs) := InternTokens(p, toks[..|toks| - 1]);
      var last := toks[|toks| - 1];
      match InternedText(last)
      case None =>
        HandlesExtend(p1, toks[..|toks| - 1], hs, last, None);
        assert toks[..|toks| - 1] + [last] == toks;
        (p1, hs + [None])
      case Some(x) =>
        var (p2, h) := StringPool.Intern(p1, x);
        StringPool.InternValid(p1, x);
        InternKeepsHandles(p1, toks[..|toks| - 1], hs, x);
        HandlesExtend(p2, toks[..|toks| - 1], hs, last, Some(h));
        assert toks[..|toks| - 1] + [last] == toks;
        (p2, hs + [Some(h)])
  }

  /** Interning one more text keeps every handle a token holds standing
      for its text: the clean-up frees only entries no handle counts. */
  lemma InternKeepsHandles(p: StringPool.Pool, toks: seq<Token>, hs: seq<Option<StringPool.IString>>, x: string)
    requires StringPool.Valid(p) && |hs| == |toks| && HandlesHold(p, toks, hs)
    ensures var (p1, h) := StringPool.Intern(p, x);
      HandlesHold(p1, toks, hs) && Holds(p1, h, x)
  {
    StringPool.InternValid(p, x);
    StringPool.InternKeepsLive(p, x);
    var p1 := StringPool.Intern(p, x).0;
    forall i | 0 <= i < |toks| && hs[i].Some?
      ensures Holds(p1, hs[i].value, InternedText(toks[i]).value)
    {
      assert Holds(p, hs[i].value, InternedText(toks[i]).value);
    }
  }

  /** A token that holds the handle its text asks for extends the
      correspondence. */
  lemma HandlesExtend(p: StringPool.Pool, toks: seq<Token>, hs: seq<Option<StringPool.IString>>, t: Token, h: Option<StringPool.IString>)
    requires |hs| == |toks| && HandlesHold(p, toks, hs)
    requires h.Some? <==> InternedText(t).Some?
    requires h.Some? ==> Holds(p, h.value, InternedText(t).value)
    ensures HandlesHold(p, toks + [t], hs + [h])
  {
    var toks', hs' := toks + [t], hs + [h];
    forall i | 0 <= i < |toks'|
      ensures hs'[i].Some? <==> InternedText(toks'[i]).Some?
      ensures hs'[i].Some? ==> Holds(p, hs'[i].value, InternedText(toks'[i]).value)
    {
      if i < |toks| {
        assert toks'[i] == toks[i] && hs'[i] == hs[i];
      }
    }
  }

  /** Lemma: in a valid pool, two held handles are equal exactly when their
      tokens carry the same text. */
  lemma HandlesShareText(p: StringPool.Pool, toks: seq<Token>, hs: seq<Option<StringPool.IString>>)
    requires StringPool.Valid(p) && |hs| == |toks| && HandlesHold(p, toks, hs)
    ensures forall i, j :: 0 <= i < |hs| && 0 <= j < |hs| && hs[i].Some? && hs[j].Some? ==>
      (hs[i] == hs[j] <==> InternedText(toks[i]) == InternedText(toks[j]))
  {
    forall i, j | 0 <= i < |hs| && 0 <= j < |hs| && hs[i].Some? && hs[j].Some?
      ensures hs[i] == hs[j] <==> InternedText(toks[i]) == InternedText(toks[j])
    {
      var a, b := hs[i].value.ptr, hs[j].value.ptr;
      assert Holds(p, hs[i].value, InternedText(toks[i]).value);
      assert Holds(p, hs[j].value, InternedText(toks[j]).value);
      if a != b {
        assert p.entries[a].data != p.entries[b].data;
      }
    }
  }

  /** `ScannerCtx::new(src, pool)` then `parse`, with the pool threaded
      through: a successful scan gives its tokens, the pool after every
      `creat_istring` call, and each token's handle. Two tokens hold the
      same handle exactly when they carry the same text, which is why the
      tokens can carry the text in place of the handle. */
  function TokenizeWithPool(src: seq<char>, p: StringPool.Pool): (r: Option<(ScanState, StringPool.Pool, seq<Option<StringPool.IString>>)>)
    requires StringPool.Valid(p)
    ensures r.Some? <==> Tokenize(src).Scanned?
    ensures r.Some? ==> r.value.0 == Tokenize(src).state
    ensures r.Some? ==> var (st, p1, hs) := r.value;
      && StringPool.Valid(p1) && |hs| == |st.tokens| && HandlesHold(p1, st.tokens, hs)
      && forall i, j :: 0 <= i < |hs| && 0 <= j < |hs| && hs[i].Some? && hs[j].Some? ==>
           (hs[i] == hs[j] <==> InternedText(st.tokens[i]) == InternedText(st.tokens[j]))
  {
    var res := Tokenize(src);
    if res.ScanFailed? then None
    else
      var (p1, hs) := InternTokens(p, res.state.tokens);
      HandlesShareText(p1, res.state.tokens, hs);
      Some((res.state, p1, hs))
  }
}
