/**
 * The lexer of src/ruau/src/lexer/lexer.rs: the token model, the classifier
 * `parse_token`, the buffer flush `push_token` and the scanning loop `tokenize`.
 *
 * Rust's `str::parse::<f32>` is outside the model: every member that needs it
 * takes the predicate `parsesAsF32` as a parameter, and a Float token keeps the
 * text it was parsed from in place of the f32 value.
 */
module Lexer {
  import opened Wrappers

  /** Rust's `i32`. */
  newtype i32 = x: int | -0x8000_0000 <= x < 0x8000_0000

  datatype TokenType =
    | String | Integer | Float | Boolean | Semicolon
    | LParen | RParen | LBrace | RBrace | LCurly | RCurly
    | Identifier | Keyword | Function | Unknown

  datatype TokenValue =
    | StrValue(text: string)
    | IntValue(number: i32)
    | FloatValue(literal: string)
    | BoolValue(truth: bool)
    | Identifier(text: string)
    | Keyword(text: string)
    | NoValue

  datatype Token = Token(kind: TokenType, value: TokenValue)

  /** The keyword set built at the start of `tokenize`. */
  const Keywords: set<string> := {"if", "fn", "let", "else", "true", "false"}

  /** The payload tag agrees with the kind. */
  predicate WellTagged(t: Token) {
    match t.kind
    case String => t.value.StrValue?
    case Integer => t.value.IntValue?
    case Float => t.value.FloatValue?
    case Boolean => t.value.BoolValue?
    case Identifier => t.value.Identifier?
    case Function => t.value.Identifier?
    case Keyword => t.value.Keyword?
    case _ => t.value.NoValue?
  }

  // ---------------------------------------------------------------------------
  // i32 parsing and printing

  predicate IsDigit(c: char) { '0' <= c <= '9' }

  predicate AllDigits(s: string) { forall i :: 0 <= i < |s| ==> IsDigit(s[i]) }

  function DigitValue(c: char): nat
    requires IsDigit(c)
  {
    c as int - '0' as int
  }

  /** The value of a run of decimal digits, most significant first. */
  function DecimalValue(s: string): nat
    requires AllDigits(s)
  {
    if s == [] then 0 else 10 * DecimalValue(s[..|s| - 1]) + DigitValue(s[|s| - 1])
  }

  /**
   * Rust's `str::parse::<i32>`: one optional `+` or `-`, then at least one
   * ASCII digit and nothing else, with a value inside the i32 range.
   */
  function ParseI32(text: string): (r: Option<i32>)
    ensures r.Some? ==> text != [] && text[|text| - 1] != '+' && text[|text| - 1] != '-'
    ensures r.Some? ==> forall i :: 0 < i < |text| ==> IsDigit(text[i])
    ensures r.Some? && !IsDigit(text[0]) ==> (text[0] == '-' || text[0] == '+') && |text| > 1
  {
    if text == [] then None
    else
      var negative := text[0] == '-';
      var digits := if text[0] == '-' || text[0] == '+' then text[1..] else text;
      if digits == [] || !AllDigits(digits) then None
      else
        var magnitude: int := DecimalValue(digits);
        var v := if negative then -magnitude else magnitude;
        if -0x8000_0000 <= v < 0x8000_0000 then Some(v as i32) else None
  }

  function DigitChar(d: nat): (c: char)
    requires d < 10
    ensures IsDigit(c) && DigitValue(c) == d
  {
    ('0' as int + d) as char
  }

  /** The decimal digits of `n`, without leading zeros. */
  function Digits(n: nat): string
  {
    if n < 10 then [DigitChar(n)] else Digits(n / 10) + [DigitChar(n % 10)]
  }

  /** Rust's `Display` for `i32`: a `-` for negative values, then the digits. */
  function FormatI32(n: i32): string
  {
    if n < 0 then "-" + Digits(-(n as int)) else Digits(n as int)
  }

  // ---------------------------------------------------------------------------
  // parse_token

  /**
   * `parse_token`: classifies a flushed buffer in a fixed priority order —
   * Boolean, Keyword, Integer, Float, Function (text holds a `!`), Identifier —
   * and carries the text itself, or its parsed value, as the payload.
   */
  function ParseToken(text: string, parsesAsF32: string -> bool): (t: Token)
    ensures WellTagged(t)
    ensures t.kind == Boolean <==> text == "true" || text == "false"
    ensures t.kind == TokenType.Keyword <==> text in {"if", "fn", "let", "else"}
    ensures t.kind == Integer <==> text !in Keywords && ParseI32(text).Some?
    ensures t.kind == Float <==> text !in Keywords && ParseI32(text).None? && parsesAsF32(text)
    ensures t.kind == Function <==>
      text !in Keywords && ParseI32(text).None? && !parsesAsF32(text) && '!' in text
    ensures t.kind == TokenType.Identifier <==>
      text !in Keywords && ParseI32(text).None? && !parsesAsF32(text) && '!' !in text
    ensures t.kind == Boolean ==> t.value.truth == (text == "true")
    ensures t.kind == Integer ==> Some(t.value.number) == ParseI32(text)
    ensures !t.value.StrValue? && !t.value.NoValue?
    ensures t.value.Identifier? || t.value.Keyword? ==> t.value.text == text
    ensures t.value.FloatValue? ==> t.value.literal == text
  {
    match text
    case "true" => Token(Boolean, BoolValue(true))
    case "false" => Token(Boolean, BoolValue(false))
    case _ =>
      if text in Keywords then
        Token(TokenType.Keyword, TokenValue.Keyword(text))
      else
        match ParseI32(text)
        case Some(v) => Token(Integer, IntValue(v))
        case None =>
          if parsesAsF32(text) then Token(Float, FloatValue(text))
          else if '!' in text then Token(Function, TokenValue.Identifier(text))
          else Token(TokenType.Identifier, TokenValue.Identifier(text))
  }

  // ---------------------------------------------------------------------------
  // The scanner as a left fold: the specification of `tokenize`

  /** The three locals of `tokenize`: the token list, the pending buffer and the string flag. */
  datatype Scan = Scan(tokens: seq<Token>, buffer: string, inString: bool)

  const Start: Scan := Scan([], [], false)

  /** `push_token`: an empty buffer adds nothing; otherwise one classified token, and the buffer empties. */
  function Flush(s: Scan, parsesAsF32: string -> bool): Scan
  {
    if s.buffer == [] then s
    else s.(tokens := s.tokens + [ParseToken(s.buffer, parsesAsF32)], buffer := [])
  }

  predicate IsDelimiter(c: char) { c == '(' || c == ')' || c == '{' || c == '}' }

  function DelimiterKind(c: char): TokenType
    requires IsDelimiter(c)
  {
    match c
    case '(' => LParen
    case ')' => RParen
    case '{' => LBrace
    case '}' => RBrace
  }

  predicate IsQuote(c: char) { c == '"' || c == '\'' }

  /** One iteration of the `for c in input.chars()` loop of `tokenize`. */
  function Step(s: Scan, c: char, parsesAsF32: string -> bool): Scan
  {
    if c == ' ' && !s.inString then
      Flush(s, parsesAsF32)
    else if c == ';' then
      var f := Flush(s, parsesAsF32);
      f.(tokens := f.tokens + [Token(Semicolon, NoValue)])
    else if IsDelimiter(c) && !s.inString then
      var f := Flush(s, parsesAsF32);
      f.(tokens := f.tokens + [Token(DelimiterKind(c), NoValue)])
    else if IsQuote(c) then
      if s.inString && s.buffer != [] then
        Scan(s.tokens + [Token(String, StrValue(s.buffer))], [], !s.inString)
      else
        s.(inString := !s.inString)
    else if c == '\n' then
      s
    else
      s.(buffer := s.buffer + [c])
  }

  /** The scanner state after the characters of `input`, starting from `s`. */
  function Run(s: Scan, input: string, parsesAsF32: string -> bool): Scan
  {
    if input == [] then s
    else Step(Run(s, input[..|input| - 1], parsesAsF32), input[|input| - 1], parsesAsF32)
  }

  /** The result of `tokenize`: scan every character, then flush the buffer once more. */
  function Tokens(input: string, parsesAsF32: string -> bool): seq<Token>
  {
    Flush(Run(Start, input, parsesAsF32), parsesAsF32).tokens
  }

  // ---------------------------------------------------------------------------
  // The imperative lexer

  /** `push_token`, with the Rust `&mut` arguments passed in and handed back. */
  method PushToken(tokens: seq<Token>, current: string, parsesAsF32: string -> bool)
    returns (tokens': seq<Token>, current': string)
    ensures current' == []
    ensures current == [] ==> tokens' == tokens
    ensures current != [] ==> tokens' == tokens + [ParseToken(current, parsesAsF32)]
  {
    tokens', current' := tokens, current;
    if current' != [] {
      tokens' := tokens' + [ParseToken(current', parsesAsF32)];
      current' := [];
    }
  }

  /** `tokenize`: one pass over the characters, then a final flush. */
  method Tokenize(input: string, parsesAsF32: string -> bool) returns (tokens: seq<Token>)
    ensures tokens == Tokens(input, parsesAsF32)
  {
    tokens := [];
    var current: string := [];
    var inString := false;
    for i := 0 to |input|
      invariant Scan(tokens, current, inString) == Run(Start, input[..i], parsesAsF32)
    {
      var c := input[i];
      assert input[..i + 1][..i] == input[..i];
      if c == ' ' && !inString {
        tokens, current := PushToken(tokens, current, parsesAsF32);
      } else if c == ';' {
        tokens, current := PushToken(tokens, current, parsesAsF32);
        tokens := tokens + [Token(Semicolon, NoValue)];
      } else if c == '(' && !inString {
        tokens, current := PushToken(tokens, current, parsesAsF32);
        tokens := tokens + [Token(LParen, NoValue)];
      } else if c == ')' && !inString {
        tokens, current := PushToken(tokens, current, parsesAsF32);
        tokens := tokens + [Token(RParen, NoValue)];
      } else if c == '{' && !inString {
        tokens, current := PushToken(tokens, current, parsesAsF32);
        tokens := tokens + [Token(LBrace, NoValue)];
      } else if c == '}' && !inString {
        tokens, current := PushToken(tokens, current, parsesAsF32);
        tokens := tokens + [Token(RBrace, NoValue)];
      } else if c == '"' || c == '\'' {
        if inString && current != [] {
          tokens := tokens + [Token(String, StrValue(current))];
          current := [];
        }
        inString := !inString;
      } else if c == '\n' {
      } else {
        current := current + [c];
      }
    }
    assert input[..|input|] == input;
    tokens, current := PushToken(tokens, current, parsesAsF32);
  }
}
